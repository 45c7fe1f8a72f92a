/**
  The server's batch call buffer (`batchCallBuffer` in `handler.go`), shared between the goroutine that
  processes a batch and its timeout.
 */
module BatchBuffer {
  import opened Options
  import opened JsonRpc

  const ERRCODE_TIMEOUT: int := -32002
  const ERRCODE_RESPONSE_TOO_LARGE: int := -32003
  const ERRCODE_INVALID_REQUEST: int := -32600

  /** One call of `conn.writeJSON`; `exhausted` when no call was left unprocessed at that moment. */
  datatype Write = Write(resp: seq<Message>, isError: bool, exhausted: bool)

  datatype Buf = Buf(calls: seq<Message>, resp: seq<Message>, wrote: bool, writes: seq<Write>)

  function Fresh(calls: seq<Message>): Buf {
    Buf(calls, [], false, [])
  }

  /** `pushResponse` */
  function Pushed(b: Buf, answer: Option<Message>): Buf
    requires b.calls != []
  {
    b.(calls := b.calls[1..], resp := if answer.Some? then b.resp + [answer.value] else b.resp)
  }

  /** `doWrite` */
  function Written(b: Buf, isError: bool): Buf {
    if b.wrote then b
    else
      var writes := if b.resp == [] then b.writes else b.writes + [Write(b.resp, isError, b.calls == [])];
      b.(wrote := true, writes := writes)
  }

  /** The messages that must be answered. */
  function Requests(ms: seq<Message>): seq<Message> {
    if ms == [] then []
    else
      var n := |ms| - 1;
      if IsNotification(ms[n]) then Requests(ms[..n]) else Requests(ms[..n]) + [ms[n]]
  }

  function ErrorsFor(ms: seq<Message>, code: int): seq<Message> {
    var rs := Requests(ms);
    seq(|rs|, i requires 0 <= i < |rs| => ErrorResponse(rs[i], code))
  }

  /** `respondWithError` */
  function Errored(b: Buf, code: int): Buf {
    Written(b.(resp := b.resp + ErrorsFor(b.calls, code)), true)
  }

  class BatchCallBuffer {
    var calls: seq<Message>
    var resp: seq<Message>
    var wrote: bool
    var writes: seq<Write>   // what the connection has been given

    function View(): Buf
      reads this
    {
      Buf(calls, resp, wrote, writes)
    }

    constructor (calls: seq<Message>)
      ensures View() == Fresh(calls)
    {
      this.calls, resp, wrote, writes := calls, [], false, [];
    }

    /** The next call stays in the buffer until its response is pushed. */
    method NextCall() returns (m: Option<Message>)
      ensures m.None? <==> calls == []
      ensures m.Some? ==> m.value == calls[0]
    {
      if |calls| == 0 {
        return None;
      }
      return Some(calls[0]);
    }

    method PushResponse(answer: Option<Message>)
      requires calls != []
      modifies this
      ensures View() == Pushed(old(View()), answer)
    {
      if answer.Some? {
        resp := resp + [answer.value];
      }
      calls := calls[1..];
    }

    method DoWrite(isError: bool)
      modifies this
      ensures View() == Written(old(View()), isError)
    {
      if wrote {
        return;
      }
      wrote := true;
      if |resp| > 0 {
        writes := writes + [Write(resp, isError, calls == [])];
      }
    }

    method RespondWithError(code: int)
      modifies this
      ensures View() == Errored(old(View()), code)
    {
      for i := 0 to |calls|
        invariant calls == old(calls)
        invariant View() == old(View()).(resp := old(resp) + ErrorsFor(calls[..i], code))
      {
        assert calls[..i + 1][..i] == calls[..i];
        if !IsNotification(calls[i]) {
          assert ErrorsFor(calls[..i + 1], code) == ErrorsFor(calls[..i], code) + [ErrorResponse(calls[i], code)];
          resp := resp + [ErrorResponse(calls[i], code)];
        }
      }
      assert calls[..|calls|] == calls;
      DoWrite(true);
    }
  }

  /** `handleCallMsg`: the answer to a message, with the payload its method produced. */
  function Answer(m: Message, produced: Payload): Option<Message> {
    if IsNotification(m) then None
    else if IsCall(m) then Some(Message(VERSION, m.id, "", false, produced))
    else if HasValidId(m) then Some(ErrorResponse(m, ERRCODE_INVALID_REQUEST))
    else Some(ErrorMessage(ERRCODE_INVALID_REQUEST))
  }

  /** `a` is an answer to `m`: it carries its id, or null when `m` has no usable id. */
  predicate AnswersTo(a: Message, m: Message) {
    a.version == VERSION && a.name == "" && (a.id == m.id || (!HasValidId(m) && a.id == NULL_ID))
  }

  /** One answer per message, in order. */
  predicate AnswersAll(rs: seq<Message>, ms: seq<Message>) {
    |rs| == |ms| && forall i {:trigger AnswersTo(rs[i], ms[i])} :: 0 <= i < |rs| ==> AnswersTo(rs[i], ms[i])
  }

  predicate AnswersPrefix(rs: seq<Message>, ms: seq<Message>) {
    |rs| <= |ms| && AnswersAll(rs, ms[..|rs|])
  }

  lemma {:induction false} RequestsAppend(a: seq<Message>, b: seq<Message>)
    ensures Requests(a + b) == Requests(a) + Requests(b)
  {
    if b == [] {
      assert a + b == a;
    } else {
      var n := |b| - 1;
      RequestsAppend(a, b[..n]);
      assert (a + b)[..|a| + n] == a + b[..n];
    }
  }

  lemma ErrorsAnswer(ms: seq<Message>, code: int)
    ensures AnswersAll(ErrorsFor(ms, code), Requests(ms))
  {}

  lemma AnswersConcat(r1: seq<Message>, m1: seq<Message>, r2: seq<Message>, m2: seq<Message>)
    requires AnswersAll(r1, m1) && AnswersAll(r2, m2)
    ensures AnswersAll(r1 + r2, m1 + m2)
  {}

  /** The calls processed so far. */
  function Processed(b: Buf, initial: seq<Message>): seq<Message>
    requires |b.calls| <= |initial|
  {
    initial[..|initial| - |b.calls|]
  }

  /** Until something is written, the buffer holds the answers to exactly the processed calls. */
  predicate InStep(b: Buf, initial: seq<Message>) {
    && |b.calls| <= |initial|
    && b.calls == initial[|initial| - |b.calls|..]
    && (!b.wrote ==> b.writes == [] && AnswersAll(b.resp, Requests(Processed(b, initial))))
  }

  /** A write from an exhausted queue or with errors is complete; any other is a prefix; none is empty. */
  predicate WriteOk(w: Write, initial: seq<Message>) {
    && w.resp != []
    && AnswersPrefix(w.resp, Requests(initial))
    && (w.isError || w.exhausted ==> AnswersAll(w.resp, Requests(initial)))
  }

  predicate WritesOk(b: Buf, initial: seq<Message>) {
    |b.writes| <= 1 && (|b.writes| == 1 ==> WriteOk(b.writes[0], initial))
  }

  /** Nothing is missing from what the client got. */
  predicate FullyAnswered(b: Buf, initial: seq<Message>) {
    if Requests(initial) == [] then b.writes == []
    else |b.writes| == 1 && AnswersAll(b.writes[0].resp, Requests(initial))
  }

  /** What the client got depends on the writes alone. */
  lemma WritesDecide(b: Buf, c: Buf, initial: seq<Message>)
    requires b.writes == c.writes
    ensures WritesOk(b, initial) == WritesOk(c, initial)
    ensures FullyAnswered(b, initial) == FullyAnswered(c, initial)
  {}

  lemma PushKeeps(b: Buf, initial: seq<Message>, answer: Option<Message>)
    requires InStep(b, initial) && b.calls != []
    requires answer.None? <==> IsNotification(b.calls[0])
    requires answer.Some? ==> AnswersTo(answer.value, b.calls[0])
    ensures InStep(Pushed(b, answer), initial)
  {
    var q := Pushed(b, answer);
    var n := |initial| - |b.calls|;
    assert initial[n] == b.calls[0];
    assert q.calls == initial[n + 1..];
    assert initial[..n + 1][..n] == initial[..n];
  }

  lemma AllRequests(b: Buf, initial: seq<Message>)
    requires InStep(b, initial)
    ensures Requests(initial) == Requests(Processed(b, initial)) + Requests(b.calls)
  {
    RequestsAppend(Processed(b, initial), b.calls);
    assert Processed(b, initial) + b.calls == initial;
  }

  lemma WriteKeeps(b: Buf, initial: seq<Message>, isError: bool)
    requires InStep(b, initial) && WritesOk(b, initial)
    requires !b.wrote && isError ==> AnswersAll(b.resp, Requests(initial))
    ensures InStep(Written(b, isError), initial) && WritesOk(Written(b, isError), initial) && Written(b, isError).wrote
    ensures !b.wrote && (b.calls == [] || isError) ==> FullyAnswered(Written(b, isError), initial)
  {
    AllRequests(b, initial);
    if !b.wrote {
      assert isError || AnswersPrefix(b.resp, Requests(initial));
      assert isError ==> Requests(initial)[..|b.resp|] == Requests(initial);
    }
  }

  lemma ErrorKeeps(b: Buf, initial: seq<Message>, code: int)
    requires InStep(b, initial) && WritesOk(b, initial)
    ensures InStep(Errored(b, code), initial) && WritesOk(Errored(b, code), initial) && Errored(b, code).wrote
    ensures !b.wrote ==> FullyAnswered(Errored(b, code), initial)
    ensures b.wrote ==> Errored(b, code).writes == b.writes
  {
    AllRequests(b, initial);
    ErrorsAnswer(b.calls, code);
    var full := b.resp + ErrorsFor(b.calls, code);
    if !b.wrote {
      AnswersConcat(b.resp, Requests(Processed(b, initial)), ErrorsFor(b.calls, code), Requests(b.calls));
      assert Requests(initial)[..|full|] == Requests(initial);
    }
  }

  /** A write of what has been answered is complete exactly when only notifications are left. */
  lemma WriteIsCompleteIff(b: Buf, initial: seq<Message>)
    requires InStep(b, initial) && WritesOk(b, initial) && !b.wrote
    ensures FullyAnswered(Written(b, false), initial) <==> Requests(b.calls) == []
  {
    AllRequests(b, initial);
  }
}
