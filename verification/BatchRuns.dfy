/**
  A batch under its timeout (`handleBatch` in `handler.go`): every interleaving of the processing goroutine,
  the timer function (cancel, then respondWithError) and a cancellation from outside.
 */
module BatchRuns {
  import opened Options
  import opened JsonRpc
  import opened BatchBuffer

  /** Where the processing goroutine is. */
  datatype Phase =
    | AtLoop                 // about to look at cp.ctx.Err()
    | Fetching               // about to call nextCall
    | Executing(m: Message)  // in handleCallMsg
    | TooLarge               // about to call respondWithError
    | LeftLoop               // about to stop the timer
    | Finishing              // about to call write
    | Done

  datatype Timer = NoTimer | Armed | Fired | Over

  datatype State = State(
    initial: seq<Message>,
    b: Buf,
    cancelled: bool,
    phase: Phase,
    timer: Timer,
    bytes: nat,
    maxBytes: nat)    // h.batchResponseMaxSize, 0 for no limit

  function Start(calls: seq<Message>, hasTimeout: bool, maxBytes: nat): State {
    State(calls, Fresh(calls), false, AtLoop, if hasTimeout then Armed else NoTimer, 0, maxBytes)
  }

  datatype Event =
    | CheckContext
    | Fetch
    | Push(produced: Payload, size: nat)   // handleCallMsg returned; size is len(resp.Result)
    | RefuseRest
    | StopTimer
    | FinalWrite
    | Fire                                 // the timer function starts and cancels the context
    | TimerResponds
    | CancelOutside

  predicate Enabled(s: State, e: Event) {
    match e
    case CheckContext => s.phase.AtLoop?
    case Fetch => s.phase.Fetching?
    case Push(_, _) => s.phase.Executing?
    case RefuseRest => s.phase.TooLarge?
    case StopTimer => s.phase.LeftLoop?
    case FinalWrite => s.phase.Finishing?
    case Fire => s.timer.Armed?
    case TimerResponds => s.timer.Fired?
    case CancelOutside => true
  }

  function Next(s: State, e: Event): State
    requires Enabled(s, e)
  {
    match e
    case CheckContext => s.(phase := if s.cancelled then LeftLoop else Fetching)
    case Fetch => s.(phase := if s.b.calls == [] then LeftLoop else Executing(s.b.calls[0]))
    case Push(produced, size) => AfterPush(s, Answer(s.phase.m, produced), size)
    case RefuseRest => s.(b := Errored(s.b, ERRCODE_RESPONSE_TOO_LARGE), phase := LeftLoop)
    case StopTimer => s.(phase := Finishing, timer := if s.timer.Armed? then Over else s.timer)
    case FinalWrite => s.(b := Written(s.b, false), phase := Done)
    case Fire => s.(cancelled := true, timer := Fired)
    case TimerResponds => s.(b := Errored(s.b, ERRCODE_TIMEOUT), timer := Over)
    case CancelOutside => s.(cancelled := true)
  }

  /** Pushing a response pops a call; there must be one. */
  function AfterPush(s: State, answer: Option<Message>, size: nat): State {
    var b := if s.b.calls == [] then s.b else Pushed(s.b, answer);
    if answer.Some? && s.maxBytes != 0
    then s.(b := b, bytes := s.bytes + size, phase := if s.bytes + size > s.maxBytes then TooLarge else AtLoop)
    else s.(b := b, phase := AtLoop)
  }

  predicate Inv(s: State) {
    && InStep(s.b, s.initial)
    && WritesOk(s.b, s.initial)
    && (s.phase.Executing? ==> s.b.calls != [] && s.b.calls[0] == s.phase.m)
    && (s.timer.Fired? ==> s.cancelled)
    && (s.b.wrote && !s.cancelled ==> FullyAnswered(s.b, s.initial))
    && (s.phase.LeftLoop? || s.phase.Finishing? ==> s.cancelled || s.b.calls == [] || s.b.wrote)
    && (s.phase.Done? ==> s.b.wrote)
  }

  lemma StartInv(calls: seq<Message>, hasTimeout: bool, maxBytes: nat)
    ensures Inv(Start(calls, hasTimeout, maxBytes))
  {}

  /** An answer is given to every message but notifications, and carries its id. */
  lemma AnswerFits(m: Message, produced: Payload)
    ensures Answer(m, produced).None? <==> IsNotification(m)
    ensures Answer(m, produced).Some? ==> AnswersTo(Answer(m, produced).value, m)
  {}

  lemma PushStep(s: State, produced: Payload, size: nat)
    requires Inv(s) && Enabled(s, Push(produced, size))
    ensures Inv(Next(s, Push(produced, size)))
  {
    AnswerFits(s.phase.m, produced);
    PushKeeps(s.b, s.initial, Answer(s.phase.m, produced));
    var b := Pushed(s.b, Answer(s.phase.m, produced));
    WritesDecide(s.b, b, s.initial);
    PushStepRest(s, b, Answer(s.phase.m, produced), size);
  }

  lemma PushStepRest(s: State, b: Buf, answer: Option<Message>, size: nat)
    requires Inv(s) && s.b.calls != [] && b == Pushed(s.b, answer)
    requires InStep(b, s.initial) && WritesOk(b, s.initial)
    requires FullyAnswered(s.b, s.initial) == FullyAnswered(b, s.initial)
    ensures Inv(AfterPush(s, answer, size))
  {
    var t := AfterPush(s, answer, size);
    assert t.b == b && t.cancelled == s.cancelled && t.timer == s.timer && t.initial == s.initial;
  }

  lemma RefuseStep(s: State)
    requires Inv(s) && Enabled(s, RefuseRest)
    ensures Inv(Next(s, RefuseRest))
  {
    ErrorKeeps(s.b, s.initial, ERRCODE_RESPONSE_TOO_LARGE);
  }

  lemma TimerStep(s: State)
    requires Inv(s) && Enabled(s, TimerResponds)
    ensures Inv(Next(s, TimerResponds))
  {
    ErrorKeeps(s.b, s.initial, ERRCODE_TIMEOUT);
    var b := Errored(s.b, ERRCODE_TIMEOUT);
    assert b.calls == s.b.calls;
  }

  lemma FinalStep(s: State)
    requires Inv(s) && Enabled(s, FinalWrite)
    ensures Inv(Next(s, FinalWrite))
  {
    WriteKeeps(s.b, s.initial, false);
  }

  lemma StepKeepsInv(s: State, e: Event)
    requires Inv(s) && Enabled(s, e)
    ensures Inv(Next(s, e)) && Next(s, e).initial == s.initial
  {
    match e
    case Push(produced, size) => PushStep(s, produced, size);
    case RefuseRest => RefuseStep(s);
    case FinalWrite => FinalStep(s);
    case TimerResponds => TimerStep(s);
    case _ =>
  }

  function RunFrom(s: State, events: seq<Event>): Option<State> {
    if events == [] then Some(s)
    else
      match RunFrom(s, events[..|events| - 1])
      case None => None
      case Some(t) => if Enabled(t, events[|events| - 1]) then Some(Next(t, events[|events| - 1])) else None
  }

  lemma {:induction false} RunKeepsInv(s: State, events: seq<Event>)
    requires Inv(s)
    ensures RunFrom(s, events).Some? ==> Inv(RunFrom(s, events).value) && RunFrom(s, events).value.initial == s.initial
  {
    if events != [] {
      var n := |events| - 1;
      RunKeepsInv(s, events[..n]);
      if RunFrom(s, events).Some? {
        StepKeepsInv(RunFrom(s, events[..n]).value, events[n]);
      }
    }
  }

  /**
    Over every interleaving the batch is written at most once and never as an empty array. A
    write from an exhausted queue or with errors holds one response per request in call
    order; any other holds the responses to a prefix of the requests.
   */
  lemma WrittenAtMostOnce(calls: seq<Message>, hasTimeout: bool, maxBytes: nat, events: seq<Event>)
    requires RunFrom(Start(calls, hasTimeout, maxBytes), events).Some?
    ensures var b := RunFrom(Start(calls, hasTimeout, maxBytes), events).value.b;
            |b.writes| <= 1 && (|b.writes| == 1 ==> WriteOk(b.writes[0], calls))
  {
    StartInv(calls, hasTimeout, maxBytes);
    RunKeepsInv(Start(calls, hasTimeout, maxBytes), events);
  }

  /** A batch that finishes without its context being cancelled is answered completely. */
  lemma UncancelledBatchIsAnswered(calls: seq<Message>, hasTimeout: bool, maxBytes: nat, events: seq<Event>, s: State)
    requires RunFrom(Start(calls, hasTimeout, maxBytes), events) == Some(s) && s.phase.Done? && !s.cancelled
    ensures FullyAnswered(s.b, calls)
  {
    StartInv(calls, hasTimeout, maxBytes);
    RunKeepsInv(Start(calls, hasTimeout, maxBytes), events);
  }

  /** No pop of an empty queue, in any interleaving. */
  lemma PopsOnlyWhatIsThere(calls: seq<Message>, hasTimeout: bool, maxBytes: nat, events: seq<Event>, s: State)
    requires RunFrom(Start(calls, hasTimeout, maxBytes), events) == Some(s) && s.phase.Executing?
    ensures s.b.calls != [] && s.phase.m == s.b.calls[0]
  {
    StartInv(calls, hasTimeout, maxBytes);
    RunKeepsInv(Start(calls, hasTimeout, maxBytes), events);
  }

  /** After the batch is written the client's view never changes again. */
  lemma {:induction false} WrittenIsFinal(s: State, events: seq<Event>)
    requires s.b.wrote && RunFrom(s, events).Some?
    ensures var t := RunFrom(s, events).value; t.b.wrote && t.b.writes == s.b.writes
  {
    if events != [] {
      WrittenIsFinal(s, events[..|events| - 1]);
    }
  }

  /** The closing write of the processing goroutine is complete exactly when only notifications were left. */
  lemma FinalWriteIsCompleteIff(calls: seq<Message>, hasTimeout: bool, maxBytes: nat, events: seq<Event>, s: State)
    requires RunFrom(Start(calls, hasTimeout, maxBytes), events) == Some(s) && s.phase.Finishing? && !s.b.wrote
    ensures FullyAnswered(Next(s, FinalWrite).b, calls) <==> Requests(s.b.calls) == []
  {
    Reached(calls, hasTimeout, maxBytes, events, s);
    WriteIsCompleteIff(s.b, calls);
    assert Next(s, FinalWrite).b == Written(s.b, false);
  }

  lemma Reached(calls: seq<Message>, hasTimeout: bool, maxBytes: nat, events: seq<Event>, s: State)
    requires RunFrom(Start(calls, hasTimeout, maxBytes), events) == Some(s)
    ensures InStep(s.b, calls) && WritesOk(s.b, calls)
  {
    StartInv(calls, hasTimeout, maxBytes);
    RunKeepsInv(Start(calls, hasTimeout, maxBytes), events);
  }

  /** Event `i` is the closing write, the first write of all, and a request is still queued. */
  predicate ClosesShortAt(start: State, events: seq<Event>, i: nat)
    requires i < |events|
  {
    var before := RunFrom(start, events[..i]);
    && events[i].FinalWrite? && before.Some? && before.value.phase.Finishing?
    && !before.value.b.wrote && Requests(before.value.b.calls) != []
  }

  predicate ClosedShort(start: State, events: seq<Event>) {
    exists i {:trigger ClosesShortAt(start, events, i)} :: 0 <= i < |events| && ClosesShortAt(start, events, i)
  }

  lemma ClosedShortStep(start: State, events: seq<Event>)
    requires events != []
    ensures ClosedShort(start, events) <==>
            ClosedShort(start, events[..|events| - 1]) || ClosesShortAt(start, events, |events| - 1)
  {
    var n := |events| - 1;
    forall i | 0 <= i < n ensures ClosesShortAt(start, events, i) <==> ClosesShortAt(start, events[..n], i) {
      assert events[..n][..i] == events[..i];
    }
    if ClosesShortAt(start, events, n) {
      assert ClosedShort(start, events);
    }
    if ClosedShort(start, events[..n]) {
      var i :| 0 <= i < n && ClosesShortAt(start, events[..n], i);
      assert ClosesShortAt(start, events, i);
    }
  }

  /** What one step writes is complete unless it is such a closing write. */
  lemma WriteStep(s: State, e: Event)
    requires Inv(s) && Enabled(s, e)
    ensures var t := Next(s, e);
            if s.b.wrote then t.b.wrote && t.b.writes == s.b.writes
            else t.b.wrote ==>
              (FullyAnswered(t.b, s.initial) <==> !(e.FinalWrite? && Requests(s.b.calls) != []))
  {
    if !s.b.wrote {
      match e
      case FinalWrite => WriteIsCompleteIff(s.b, s.initial);
      case RefuseRest => ErrorKeeps(s.b, s.initial, ERRCODE_RESPONSE_TOO_LARGE);
      case TimerResponds => ErrorKeeps(s.b, s.initial, ERRCODE_TIMEOUT);
      case _ =>
    }
  }

  lemma {:induction false} WrittenShortIff(s: State, events: seq<Event>)
    requires Inv(s) && !s.b.wrote && RunFrom(s, events).Some?
    ensures var t := RunFrom(s, events).value;
            if t.b.wrote then FullyAnswered(t.b, s.initial) <==> !ClosedShort(s, events)
            else !ClosedShort(s, events)
  {
    if events != [] {
      var n := |events| - 1;
      var before := RunFrom(s, events[..n]).value;
      RunKeepsInv(s, events[..n]);
      WrittenShortIff(s, events[..n]);
      ClosedShortStep(s, events);
      WriteStep(before, events[n]);
      if before.b.wrote {
        WritesDecide(before.b, RunFrom(s, events).value.b, s.initial);
      }
    }
  }

  /**
    Over every interleaving: a finished batch lacks an answer exactly when its closing write was the first
    write and a request was still queued. Then the context had been cancelled, by the timeout or from outside.
   */
  lemma UnansweredExactlyWhen(calls: seq<Message>, hasTimeout: bool, maxBytes: nat, events: seq<Event>, s: State)
    requires RunFrom(Start(calls, hasTimeout, maxBytes), events) == Some(s) && s.phase.Done?
    ensures !FullyAnswered(s.b, calls) <==> ClosedShort(Start(calls, hasTimeout, maxBytes), events)
    ensures !FullyAnswered(s.b, calls) ==> s.cancelled
  {
    StartInv(calls, hasTimeout, maxBytes);
    RunKeepsInv(Start(calls, hasTimeout, maxBytes), events);
    WrittenShortIff(Start(calls, hasTimeout, maxBytes), events);
  }

  /** Without any timeout: a cancellation from outside leaves the only request of a batch unanswered. */
  lemma OutsideCancelLeavesRequest(a: Message)
    requires IsCall(a)
    ensures var events := [CancelOutside, CheckContext, StopTimer, FinalWrite];
            && RunFrom(Start([a], false, 0), events).Some?
            && var s := RunFrom(Start([a], false, 0), events).value;
               s.phase.Done? && s.b.writes == [] && !FullyAnswered(s.b, [a])
  {
    var s0, e := Start([a], false, 0), [CancelOutside, CheckContext, StopTimer, FinalWrite];
    assert e[..0] == [] && e[..4] == e;
    var s1 := Next(s0, CancelOutside);
    Extend(s0, e, 0, s0, s1);
    var s2 := Next(s1, CheckContext);
    Extend(s0, e, 1, s1, s2);
    var s3 := Next(s2, StopTimer);
    Extend(s0, e, 2, s2, s3);
    Extend(s0, e, 3, s3, Next(s3, FinalWrite));
    assert [a][..0] == [] && Requests([a]) == [a];
  }

  /** A run in which the timer cancels the context and then loses the race for the buffer. */
  function Race(p: Payload): seq<Event> {
    [CheckContext, Fetch, Push(p, 0), Fire, CheckContext, StopTimer, FinalWrite, TimerResponds]
  }

  /**
    The timeout may lose: the timer cancels the context, the processing goroutine sees it, leaves
    the loop and writes what it has before the timer's respondWithError runs. The second
    request of this batch is never answered.
   */
  lemma TimeoutRaceWritesPrefix(a: Message, c: Message, p: Payload) returns (s: State)
    requires IsCall(a) && IsCall(c)
    ensures RunFrom(Start([a, c], true, 0), Race(p)) == Some(s)
    ensures s.phase.Done? && s.timer.Over?
    ensures |s.b.writes| == 1 && s.b.writes[0].resp == [Answer(a, p).value] && !FullyAnswered(s.b, [a, c])
  {
    var first := RaceFirst(a, c, p);
    var middle := RaceMiddle(a, c, p, first);
    s := RaceLast(a, c, p, middle);
    TwoRequests(a, c);
  }

  lemma TwoRequests(a: Message, c: Message)
    requires IsCall(a) && IsCall(c)
    ensures Requests([a, c]) == [a, c]
  {
    assert [a, c][..1] == [a] && [a][..0] == [];
    assert Requests([a]) == [a];
  }

  lemma RaceFirst(a: Message, c: Message, p: Payload) returns (s3: State)
    requires IsCall(a) && IsCall(c)
    ensures RunFrom(Start([a, c], true, 0), Race(p)[..3]) == Some(s3)
    ensures s3 == State([a, c], Buf([c], [Answer(a, p).value], false, []), false, AtLoop, Armed, 0, 0)
  {
    var s0, e := Start([a, c], true, 0), Race(p);
    var s1 := Next(s0, CheckContext);
    var s2 := Next(s1, Fetch);
    s3 := Next(s2, Push(p, 0));
    assert e[..0] == [];
    Extend(s0, e, 0, s0, s1);
    Extend(s0, e, 1, s1, s2);
    Extend(s0, e, 2, s2, s3);
    assert [a, c][1..] == [c];
  }

  lemma RaceMiddle(a: Message, c: Message, p: Payload, s3: State) returns (s6: State)
    requires RunFrom(Start([a, c], true, 0), Race(p)[..3]) == Some(s3)
    requires s3.phase.AtLoop? && s3.timer.Armed?
    ensures RunFrom(Start([a, c], true, 0), Race(p)[..6]) == Some(s6)
    ensures s6 == s3.(cancelled := true, phase := Finishing, timer := Fired)
  {
    var s0, e := Start([a, c], true, 0), Race(p);
    var s4 := Next(s3, Fire);
    Extend(s0, e, 3, s3, s4);
    var s5 := Next(s4, CheckContext);
    Extend(s0, e, 4, s4, s5);
    s6 := Next(s5, StopTimer);
    Extend(s0, e, 5, s5, s6);
  }

  lemma RaceLast(a: Message, c: Message, p: Payload, s6: State) returns (s8: State)
    requires RunFrom(Start([a, c], true, 0), Race(p)[..6]) == Some(s6)
    requires IsCall(a) && s6.phase.Finishing? && s6.timer.Fired? && s6.b == Buf([c], [Answer(a, p).value], false, [])
    ensures RunFrom(Start([a, c], true, 0), Race(p)) == Some(s8)
    ensures s8.phase.Done? && s8.timer.Over? && s8.b.writes == [Write([Answer(a, p).value], false, false)]
  {
    var s0, e := Start([a, c], true, 0), Race(p);
    var s7 := Next(s6, FinalWrite);
    Extend(s0, e, 6, s6, s7);
    s8 := Next(s7, TimerResponds);
    Extend(s0, e, 7, s7, s8);
    assert e[..8] == e;
  }

  lemma Extend(s: State, e: seq<Event>, n: nat, t: State, u: State)
    requires n < |e| && RunFrom(s, e[..n]) == Some(t) && Enabled(t, e[n]) && u == Next(t, e[n])
    ensures RunFrom(s, e[..n + 1]) == Some(u)
  {
    assert e[..n + 1][..n] == e[..n];
  }
}
