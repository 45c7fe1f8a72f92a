/**
  What the client of a batch gets: over every interleaving exactly which messages, with their payloads and
  error codes; and that a batch which nothing disturbs is processed to its end.
 */
module BatchAnswers {
  import opened Options
  import opened JsonRpc
  import opened BatchBuffer
  import opened BatchRuns

  /** The answer to a message that is no notification: a call gets what its method produced. */
  function Reply(m: Message, produced: Payload): Message {
    if IsCall(m) then Message("2.0", m.id, "", false, produced)
    else Message("2.0", if HasValidId(m) then m.id else Some("null"), "", false, ErrorOf(-32600))
  }

  /** The answers to messages whose methods produced these payloads: none for notifications. */
  function Replies(ms: seq<Message>, produced: seq<Payload>): seq<Message>
    requires |ms| == |produced|
  {
    if ms == [] then []
    else
      var n := |ms| - 1;
      Replies(ms[..n], produced[..n]) + if IsNotification(ms[n]) then [] else [Reply(ms[n], produced[n])]
  }

  /** An error for every message that is no notification. */
  function Refusals(ms: seq<Message>, code: int): seq<Message> {
    if ms == [] then []
    else
      var n := |ms| - 1;
      Refusals(ms[..n], code)
      + if IsNotification(ms[n]) then [] else [Message("2.0", ms[n].id, "", false, ErrorOf(code))]
  }

  lemma {:induction false} ErrorsAreRefusals(ms: seq<Message>, code: int)
    ensures ErrorsFor(ms, code) == Refusals(ms, code)
  {
    if ms != [] {
      ErrorsAreRefusals(ms[..|ms| - 1], code);
    }
  }

  /** What the methods produced, in order. */
  function Produced(events: seq<Event>): seq<Payload> {
    if events == [] then []
    else
      var n := |events| - 1;
      Produced(events[..n]) + if events[n].Push? then [events[n].produced] else []
  }

  /** The answers to the messages processed in these events. */
  function RepliesSoFar(calls: seq<Message>, events: seq<Event>): seq<Message> {
    var ps := Produced(events);
    if |ps| <= |calls| then Replies(calls[..|ps|], ps) else []
  }

  function LeftOver(calls: seq<Message>, events: seq<Event>): seq<Message> {
    if |Produced(events)| <= |calls| then calls[|Produced(events)|..] else []
  }

  /**
    What the first of the three steps that end a batch hands to the connection: the answers so far, and errors
    for the rest if the response got too large or the time ran out.
   */
  function Given(calls: seq<Message>, events: seq<Event>): Option<seq<Message>> {
    if events == [] then None
    else
      var n := |events| - 1;
      var before := Given(calls, events[..n]);
      if before.Some? then before
      else
        var replies, rest := RepliesSoFar(calls, events[..n]), LeftOver(calls, events[..n]);
        match events[n]
        case FinalWrite => Some(replies)
        case RefuseRest => Some(replies + Refusals(rest, -32003))
        case TimerResponds => Some(replies + Refusals(rest, -32002))
        case _ => None
  }

  /** The buffer after these events. */
  predicate Matches(s: State, calls: seq<Message>, events: seq<Event>) {
    && |Produced(events)| <= |calls| && s.b.calls == LeftOver(calls, events)
    && s.b.wrote == Given(calls, events).Some?
    && if s.b.wrote then
         var all := Given(calls, events).value;
         if all == [] then s.b.writes == [] else |s.b.writes| == 1 && s.b.writes[0].resp == all
       else s.b.writes == [] && s.b.resp == RepliesSoFar(calls, events)
  }

  lemma AnswerIsReply(m: Message, produced: Payload)
    ensures Answer(m, produced) == if IsNotification(m) then None else Some(Reply(m, produced))
  {}

  /** One more step that ends the batch, or pushes nothing and ends nothing. */
  lemma GivenStep(calls: seq<Message>, events: seq<Event>, e: Event)
    ensures Produced(events + [e]) == Produced(events) + if e.Push? then [e.produced] else []
    ensures Given(calls, events + [e]) ==
              if Given(calls, events).Some? then Given(calls, events)
              else match e
                case FinalWrite => Some(RepliesSoFar(calls, events))
                case RefuseRest => Some(RepliesSoFar(calls, events) + Refusals(LeftOver(calls, events), -32003))
                case TimerResponds => Some(RepliesSoFar(calls, events) + Refusals(LeftOver(calls, events), -32002))
                case _ => None
  {
    assert (events + [e])[..|events|] == events;
  }

  lemma PushMatches(s: State, calls: seq<Message>, events: seq<Event>, e: Event)
    requires Inv(s) && Enabled(s, e) && e.Push? && Matches(s, calls, events)
    ensures Matches(Next(s, e), calls, events + [e])
  {
    var ps, n := Produced(events), |Produced(events)|;
    GivenStep(calls, events, e);
    assert s.b.calls[0] == calls[n] == s.phase.m;
    assert calls[..n + 1][..n] == calls[..n] && (ps + [e.produced])[..n] == ps;
    AnswerIsReply(s.phase.m, e.produced);
  }

  lemma ErrorMatches(s: State, calls: seq<Message>, events: seq<Event>, e: Event)
    requires Enabled(s, e) && (e.RefuseRest? || e.TimerResponds?) && Matches(s, calls, events)
    ensures Matches(Next(s, e), calls, events + [e])
  {
    GivenStep(calls, events, e);
    ErrorsAreRefusals(s.b.calls, if e.RefuseRest? then -32003 else -32002);
    assert Produced(events + [e]) == Produced(events);
  }

  lemma StepMatches(s: State, calls: seq<Message>, events: seq<Event>, e: Event)
    requires Inv(s) && Enabled(s, e) && Matches(s, calls, events)
    ensures Matches(Next(s, e), calls, events + [e])
  {
    match e
    case Push(_, _) => PushMatches(s, calls, events, e);
    case RefuseRest => ErrorMatches(s, calls, events, e);
    case TimerResponds => ErrorMatches(s, calls, events, e);
    case _ =>
      GivenStep(calls, events, e);
      assert Produced(events + [e]) == Produced(events);
  }

  /** Over every interleaving: what has been written, or is in the buffer, message by message. */
  lemma {:induction false} WrittenExactly(
    calls: seq<Message>, hasTimeout: bool, maxBytes: nat, events: seq<Event>, s: State)
    requires RunFrom(Start(calls, hasTimeout, maxBytes), events) == Some(s)
    ensures Matches(s, calls, events)
  {
    if events != [] {
      var n := |events| - 1;
      var before := RunFrom(Start(calls, hasTimeout, maxBytes), events[..n]).value;
      StartInv(calls, hasTimeout, maxBytes);
      RunKeepsInv(Start(calls, hasTimeout, maxBytes), events[..n]);
      WrittenExactly(calls, hasTimeout, maxBytes, events[..n], before);
      StepMatches(before, calls, events[..n], events[n]);
      assert events[..n] + [events[n]] == events;
    }
  }

  /** The sizes of the results of all messages so far that are no notifications. */
  function TotalSize(calls: seq<Message>, events: seq<Event>): nat {
    if events == [] then 0
    else
      var n := |events| - 1;
      var k := |Produced(events[..n])|;
      TotalSize(calls, events[..n])
      + if events[n].Push? && k < |calls| && !IsNotification(calls[k]) then events[n].size else 0
  }

  predicate Sized(s: State, calls: seq<Message>, events: seq<Event>, maxBytes: nat) {
    s.maxBytes == maxBytes && (maxBytes != 0 ==> s.bytes == TotalSize(calls, events))
  }

  lemma SizeStep(s: State, calls: seq<Message>, events: seq<Event>, maxBytes: nat, e: Event)
    requires Inv(s) && Enabled(s, e) && Matches(s, calls, events) && Sized(s, calls, events, maxBytes)
    ensures Sized(Next(s, e), calls, events + [e], maxBytes)
  {
    assert (events + [e])[..|events|] == events;
    if e.Push? {
      var k := |Produced(events)|;
      assert s.phase.m == s.b.calls[0] == calls[k];
      AnswerIsReply(s.phase.m, e.produced);
    }
  }

  lemma {:induction false} SizesAdd(calls: seq<Message>, hasTimeout: bool, maxBytes: nat, events: seq<Event>, s: State)
    requires RunFrom(Start(calls, hasTimeout, maxBytes), events) == Some(s)
    ensures Sized(s, calls, events, maxBytes)
  {
    if events != [] {
      var n := |events| - 1;
      var before := RunFrom(Start(calls, hasTimeout, maxBytes), events[..n]).value;
      SizesAdd(calls, hasTimeout, maxBytes, events[..n], before);
      WrittenExactly(calls, hasTimeout, maxBytes, events[..n], before);
      StartInv(calls, hasTimeout, maxBytes);
      RunKeepsInv(Start(calls, hasTimeout, maxBytes), events[..n]);
      SizeStep(before, calls, events[..n], maxBytes, events[n]);
      assert events[..n] + [events[n]] == events;
    }
  }

  /** The rest is refused exactly when the results so far exceed the limit, if there is one. */
  lemma RefusedExactlyWhen(
    calls: seq<Message>, hasTimeout: bool, maxBytes: nat, events: seq<Event>, s: State, produced: Payload, size: nat)
    requires RunFrom(Start(calls, hasTimeout, maxBytes), events) == Some(s) && s.phase.Executing?
    ensures var e := Push(produced, size);
            Next(s, e).phase == if && maxBytes != 0 && !IsNotification(s.phase.m)
                                   && TotalSize(calls, events + [e]) > maxBytes then TooLarge else AtLoop
  {
    var e := Push(produced, size);
    SizesAdd(calls, hasTimeout, maxBytes, events, s);
    RunOn(Start(calls, hasTimeout, maxBytes), events, s, e);
    SizesAdd(calls, hasTimeout, maxBytes, events + [e], Next(s, e));
    AnswerIsReply(s.phase.m, produced);
  }

  // A batch that nothing disturbs.

  /** The processing goroutine handles one message after the other. */
  function Rounds(produced: seq<Payload>): seq<Event> {
    if produced == [] then []
    else
      var n := |produced| - 1;
      Rounds(produced[..n]) + [CheckContext, Fetch, Push(produced[n], 0)]
  }

  lemma RunOn(s: State, events: seq<Event>, t: State, e: Event)
    requires RunFrom(s, events) == Some(t) && Enabled(t, e)
    ensures RunFrom(s, events + [e]) == Some(Next(t, e))
  {
    assert (events + [e])[..|events|] == events;
  }

  lemma {:induction false} RoundsRun(calls: seq<Message>, hasTimeout: bool, produced: seq<Payload>) returns (s: State)
    requires |produced| <= |calls|
    ensures RunFrom(Start(calls, hasTimeout, 0), Rounds(produced)) == Some(s)
    ensures s.phase.AtLoop? && !s.cancelled && !s.b.wrote && !s.timer.Fired?
    ensures s.b.calls == calls[|produced|..] && s.maxBytes == 0 && Produced(Rounds(produced)) == produced
  {
    if produced == [] {
      s := Start(calls, hasTimeout, 0);
    } else {
      var n := |produced| - 1;
      var first, p := Rounds(produced[..n]), produced[n];
      var s0 := RoundsRun(calls, hasTimeout, produced[..n]);
      var s1 := Next(s0, CheckContext);
      var s2 := Next(s1, Fetch);
      s := Next(s2, Push(p, 0));
      RunThree(Start(calls, hasTimeout, 0), first, s0, CheckContext, Fetch, Push(p, 0));
      ProducedThree(first, CheckContext, Fetch, Push(p, 0));
      assert produced[..n] + [p] == produced;
    }
  }

  lemma RunThree(s: State, events: seq<Event>, t: State, e: Event, f: Event, g: Event)
    requires RunFrom(s, events) == Some(t) && Enabled(t, e) && Enabled(Next(t, e), f)
    requires Enabled(Next(Next(t, e), f), g)
    ensures RunFrom(s, events + [e, f, g]) == Some(Next(Next(Next(t, e), f), g))
  {
    RunOn(s, events, t, e);
    RunOn(s, events + [e], Next(t, e), f);
    RunOn(s, events + [e] + [f], Next(Next(t, e), f), g);
    assert events + [e] + [f] + [g] == events + [e, f, g];
  }

  lemma ProducedThree(events: seq<Event>, e: Event, f: Event, g: Event)
    requires !e.Push? && !f.Push?
    ensures Produced(events + [e, f, g]) == Produced(events) + if g.Push? then [g.produced] else []
  {
    GivenStep([], events, e);
    GivenStep([], events + [e], f);
    GivenStep([], events + [e] + [f], g);
    assert events + [e] + [f] + [g] == events + [e, f, g];
  }

  /**
    Without cancellation, timeout or size limit every batch runs to its end, whatever its methods produce, and
    the client gets exactly the answers to all messages but the notifications, in order.
   */
  lemma UndisturbedBatchEnds(calls: seq<Message>, hasTimeout: bool, produced: seq<Payload>) returns (t: State)
    requires |produced| == |calls|
    ensures var events := Rounds(produced) + [CheckContext, Fetch] + [StopTimer, FinalWrite];
            RunFrom(Start(calls, hasTimeout, 0), events) == Some(t)
    ensures t.phase.Done? && !t.timer.Armed?
    ensures if Replies(calls, produced) == [] then t.b.writes == []
            else |t.b.writes| == 1 && t.b.writes[0].resp == Replies(calls, produced)
  {
    var s0 := RoundsRun(calls, hasTimeout, produced);
    var first, s := Rounds(produced), Start(calls, hasTimeout, 0);
    WrittenExactly(calls, hasTimeout, 0, first, s0);
    assert calls[..|calls|] == calls;
    var s1 := Next(s0, CheckContext);
    var s2 := Next(s1, Fetch);
    RunThree(s, first, s0, CheckContext, Fetch, StopTimer);
    var s3 := Next(s2, StopTimer);
    RunOn(s, first + [CheckContext, Fetch, StopTimer], s3, FinalWrite);
    assert first + [CheckContext, Fetch] + [StopTimer, FinalWrite]
        == first + [CheckContext, Fetch, StopTimer] + [FinalWrite];
    t := Next(s3, FinalWrite);
  }
}
