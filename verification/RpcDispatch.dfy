/**
  The client's dispatch loop (`client.go`) as a state machine: each event is one case of its select, or a
  step of a goroutine around it (a writer finishing, a caller receiving its response). Every interleaving
  of calls, responses, timeouts, broken connections, reconnects and shutdown is a run.
 */
module RpcDispatch {
  import opened Options
  import opened JsonRpc
  import opened RequestOps

  /** The goroutine that holds the write lock: in `write`, or done with its result buffered in `reqSent`. */
  datatype Writer = NoWriter | Writing(k: nat) | Reported(k: nat, failed: bool)

  datatype State = State(
    w: World,
    lastOp: Option<nat>,
    accepting: bool,      // reqInitLock is c.reqInit, not nil
    reading: bool,
    running: bool,        // dispatch has not returned
    writer: Writer)

  const INITIAL: State := State(World([], map[], None), None, true, true, true, NoWriter)

  datatype Event =
    | Init(ids: seq<string>)                 // reqInit
    | WriteDone(failed: bool)                // send: c.reqSent <- err
    | Sent                                   // dispatch: <-c.reqSent
    | Reconnect                              // write called reconnect and it succeeded
    | Timeout(k: nat)                        // reqTimeout
    | Read(batch: Batch, isBatch: bool, limit: nat)
    | ReadErr
    | Quit
    | Take(k: nat)                           // op.wait receives the response

  predicate Enabled(s: State, e: Event) {
    s.w.fault.None? &&
    match e
    case Init(_) => s.running && s.accepting
    case WriteDone(_) => s.writer.Writing?
    case Sent => s.running && s.writer.Reported?
    case Reconnect => s.running && s.writer.Writing?
    case Timeout(k) => s.running && k < |s.w.ops| && s.writer != Writing(k)
    case Read(batch, isBatch, _) => s.running && s.reading && (isBatch || |batch| == 1)
    case ReadErr => s.running && s.reading
    case Quit => s.running
    case Take(k) => k < |s.w.ops| && s.w.ops[k].buffer.Some?
  }

  /** Register the last request with the current handler; there must be one. */
  function Register(w: World, op: Option<nat>): World {
    if op.None? || op.value >= |w.ops| then Failed(w, NilRequest)
    else w.(wait := Added(w.wait, w.ops[op.value].ids, op.value))
  }

  function Deregister(w: World, op: Option<nat>): World {
    if op.None? || op.value >= |w.ops| then Failed(w, NilRequest)
    else w.(wait := w.wait - IdSet(w.ops[op.value].ids))
  }

  /** The batch is refused before its responses are looked at. */
  predicate Refused(batch: Batch, isBatch: bool, limit: nat) {
    isBatch && (|batch| == 0 || (limit != 0 && |batch| > limit))
  }

  function Next(s: State, e: Event): State
    requires Enabled(s, e)
  {
    match e
    case Init(ids) =>
      var w := s.w.(ops := s.w.ops + [Op(ids, false, None, [], 0)]);
      s.(w := Register(w, Some(|s.w.ops|)), lastOp := Some(|s.w.ops|), accepting := false, writer := Writing(|s.w.ops|))
    case WriteDone(failed) => s.(writer := Reported(s.writer.k, failed))
    case Sent => s.(w := if s.writer.failed then Deregister(s.w, s.lastOp) else s.w,
                    lastOp := None, accepting := true, writer := NoWriter)
    case Reconnect =>
      var w := if s.reading then Cancelled(s.w, s.lastOp) else s.w;
      s.(w := Register(w.(wait := map[]), s.lastOp), reading := true)
    case Timeout(k) => s.(w := Deregister(s.w, Some(k)))
    case Read(batch, isBatch, limit) =>
      if Refused(batch, isBatch, limit) || !IndicesOk(s.w) then s else s.(w := Resolve(s.w, batch))
    case ReadErr => s.(w := Cancelled(s.w, s.lastOp), reading := false)
    case Quit => s.(w := if s.reading then Cancelled(s.w, None) else s.w, running := false)
    case Take(k) => s.(w := s.w.(ops := s.w.ops[k := s.w.ops[k].(buffer := None)]))
  }

  predicate IsOpen(w: World, k: nat) {
    k < |w.ops| && w.ops[k].closes == 0
  }

  /** While dispatch runs, the write lock is held exactly when there is a last operation, which is open. */
  predicate LockOk(s: State) {
    && s.accepting == s.lastOp.None?
    && (s.lastOp.Some? ==> IsOpen(s.w, s.lastOp.value))
    && (s.writer.NoWriter? <==> s.lastOp.None?)
    && (!s.writer.NoWriter? ==> s.lastOp == Some(s.writer.k))
  }

  ghost predicate Inv(s: State) {
    WorldOk(s.w) && (s.running ==> LockOk(s))
  }

  lemma IndicesFollow(w: World)
    requires WorldOk(w)
    ensures IndicesOk(w)
  {
    forall id | id in w.wait ensures w.wait[id] < |w.ops| {
      assert EntryOk(w, id);
    }
  }

  lemma RegisterKeepsOk(w: World, k: nat)
    requires WorldOk(w) && IsOpen(w, k)
    ensures WorldOk(Register(w, Some(k)))
  {
    var v := Register(w, Some(k));
    forall id | id in v.wait ensures EntryOk(v, id) {
      assert id !in IdSet(w.ops[k].ids) ==> EntryOk(w, id);
    }
  }

  lemma DeregisterKeepsOk(w: World, k: nat)
    requires WorldOk(w) && k < |w.ops|
    ensures WorldOk(Deregister(w, Some(k)))
  {
    var v := Deregister(w, Some(k));
    forall id | id in v.wait ensures EntryOk(v, id) {
      assert EntryOk(w, id);
    }
  }

  lemma EmptyTableOk(w: World)
    requires WorldOk(w)
    ensures WorldOk(w.(wait := map[]))
  {}

  lemma InitKeepsInv(s: State, ids: seq<string>)
    requires Inv(s) && Enabled(s, Init(ids))
    ensures Inv(Next(s, Init(ids)))
  {
    var w := s.w.(ops := s.w.ops + [Op(ids, false, None, [], 0)]);
    forall id | id in w.wait ensures EntryOk(w, id) {
      assert EntryOk(s.w, id);
    }
    forall k: nat | k < |w.ops| ensures OpOk(w.ops[k]) {
      assert k < |s.w.ops| ==> OpOk(s.w.ops[k]);
    }
    assert WorldOk(w);
    RegisterKeepsOk(w, |s.w.ops|);
  }

  lemma ReconnectKeepsInv(s: State)
    requires Inv(s) && Enabled(s, Reconnect)
    ensures Inv(Next(s, Reconnect))
  {
    CancelledKeepsOk(s.w, s.lastOp);
    var w := if s.reading then Cancelled(s.w, s.lastOp) else s.w;
    EmptyTableOk(w);
    RegisterKeepsOk(w.(wait := map[]), s.lastOp.value);
  }

  lemma ReadKeepsInv(s: State, batch: Batch, isBatch: bool, limit: nat)
    requires Inv(s) && Enabled(s, Read(batch, isBatch, limit))
    ensures Inv(Next(s, Read(batch, isBatch, limit)))
  {
    IndicesFollow(s.w);
    ResolveKeepsOk(s.w, batch);
    ResolveDelivers(s.w, batch);
    if s.lastOp.Some? {
      var k := s.lastOp.value;
      assert Resolve(s.w, batch).ops[k].closes == s.w.ops[k].closes;
    }
  }

  lemma TakeKeepsInv(s: State, k: nat)
    requires Inv(s) && Enabled(s, Take(k))
    ensures Inv(Next(s, Take(k)))
  {
    var t := Next(s, Take(k));
    forall id | id in t.w.wait ensures EntryOk(t.w, id) {
      assert EntryOk(s.w, id);
    }
    forall j: nat | j < |t.w.ops| ensures OpOk(t.w.ops[j]) {
      assert OpOk(s.w.ops[j]);
    }
  }

  lemma StepKeepsInv(s: State, e: Event)
    requires Inv(s) && Enabled(s, e)
    ensures Inv(Next(s, e))
  {
    match e
    case Init(ids) => InitKeepsInv(s, ids);
    case WriteDone(_) =>
    case Sent => DeregisterKeepsOk(s.w, s.lastOp.value);
    case Reconnect => ReconnectKeepsInv(s);
    case Timeout(k) => DeregisterKeepsOk(s.w, k);
    case Read(batch, isBatch, limit) => ReadKeepsInv(s, batch, isBatch, limit);
    case ReadErr => CancelledKeepsOk(s.w, s.lastOp);
    case Quit => CancelledKeepsOk(s.w, None);
    case Take(k) => TakeKeepsInv(s, k);
  }

  /** The state after a run from `s`, or None when some event of it was not possible. */
  function RunFrom(s: State, events: seq<Event>): Option<State> {
    if events == [] then Some(s)
    else
      match RunFrom(s, events[..|events| - 1])
      case None => None
      case Some(t) => if Enabled(t, events[|events| - 1]) then Some(Next(t, events[|events| - 1])) else None
  }

  lemma {:induction false} RunKeepsInv(s: State, events: seq<Event>)
    requires Inv(s)
    ensures RunFrom(s, events).Some? ==> Inv(RunFrom(s, events).value)
  {
    if events != [] {
      var n := |events| - 1;
      RunKeepsInv(s, events[..n]);
      if RunFrom(s, events).Some? {
        StepKeepsInv(RunFrom(s, events[..n]).value, events[n]);
      }
    }
  }

  /**
    Over every run, each response channel is sent to at most once and closed at most once; no
    send hits a closed or full channel, no channel is closed twice, no nil request is
    dereferenced; and what a caller gets holds a response to one of its ids.
   */
  lemma ChannelsAreUsedOnce(events: seq<Event>, k: nat)
    requires RunFrom(INITIAL, events).Some? && k < |RunFrom(INITIAL, events).value.w.ops|
    ensures var s := RunFrom(INITIAL, events).value;
            var op := s.w.ops[k];
            && s.w.fault.None?
            && |op.sent| <= 1 && op.closes <= 1
            && (forall b :: b in op.sent ==> AnswersIds(b, op.ids))
  {
    RunKeepsInv(INITIAL, events);
    assert OpOk(RunFrom(INITIAL, events).value.w.ops[k]);
  }

  /** A reconnect only happens with a request in flight, which is open and registered with the new connection. */
  lemma ReconnectTransfersInFlight(events: seq<Event>)
    requires RunFrom(INITIAL, events).Some? && Enabled(RunFrom(INITIAL, events).value, Reconnect)
    ensures var s := RunFrom(INITIAL, events).value;
            var t := Next(s, Reconnect);
            && s.lastOp == Some(s.writer.k) && s.writer.k < |s.w.ops|
            && t.w.ops[s.writer.k] == s.w.ops[s.writer.k]
            && (forall id :: id in t.w.wait <==> id in s.w.ops[s.writer.k].ids)
            && (forall id :: id in t.w.wait ==> t.w.wait[id] == s.writer.k)
            && (s.reading ==>
                  forall k: nat {:trigger t.w.ops[k]} ::
                    k < |s.w.ops| && k in s.w.wait.Values && k != s.writer.k ==> t.w.ops[k].closes == 1)
  {
    RunKeepsInv(INITIAL, events);
    var s := RunFrom(INITIAL, events).value;
    var t := Next(s, Reconnect);
    if s.reading {
      forall k: nat | k < |s.w.ops| && k in s.w.wait.Values && k != s.writer.k ensures t.w.ops[k].closes == 1 {
        var id :| id in s.w.wait && s.w.wait[id] == k;
        assert EntryOk(s.w, id);
      }
    }
  }

  /** Nobody will answer or close operation `k`: it is in no table and not in flight. */
  predicate Abandoned(s: State, k: nat) {
    k < |s.w.ops| && k !in s.w.wait.Values && (s.lastOp != Some(k) || !s.running)
  }

  lemma NotAnswered(w: World, batch: Batch, k: nat)
    requires k !in w.wait.Values
    ensures !Answered(w, batch, |batch|, k)
  {}

  /** A step leaves an abandoned operation abandoned, and its channel alone. */
  lemma AbandonedStep(s: State, e: Event, k: nat)
    requires Inv(s) && Enabled(s, e) && Abandoned(s, k)
    ensures var t := Next(s, e);
            Abandoned(t, k) && t.w.ops[k].sent == s.w.ops[k].sent && t.w.ops[k].closes == s.w.ops[k].closes
  {
    match e
    case Read(batch, _, _) =>
      IndicesFollow(s.w);
      ResolveDelivers(s.w, batch);
      NotAnswered(s.w, batch, k);
    case _ =>
  }

  /** So over every further run nothing is ever sent to it or closed: its caller can only time out. */
  lemma {:induction false} AbandonedForever(s: State, events: seq<Event>, k: nat)
    requires Inv(s) && Abandoned(s, k) && RunFrom(s, events).Some?
    ensures var t := RunFrom(s, events).value;
            Abandoned(t, k) && t.w.ops[k].sent == s.w.ops[k].sent && t.w.ops[k].closes == s.w.ops[k].closes
  {
    if events != [] {
      var n := |events| - 1;
      AbandonedForever(s, events[..n], k);
      RunKeepsInv(s, events[..n]);
      AbandonedStep(RunFrom(s, events[..n]).value, events[n], k);
    }
  }

  lemma RemovedFromTable(w: World, k: nat)
    requires WorldOk(w) && k < |w.ops|
    ensures k !in Deregister(w, Some(k)).wait.Values
  {
    var v := Deregister(w, Some(k));
    forall id | id in v.wait ensures v.wait[id] != k {
      assert EntryOk(w, id);
    }
  }

  /** A request that timed out, once it is no longer in flight, or whose write failed is never answered later. */
  lemma GivenUpIsAbandoned(events: seq<Event>, s: State, k: nat)
    requires RunFrom(INITIAL, events) == Some(s)
    ensures Enabled(s, Timeout(k)) && s.lastOp != Some(k) ==> Abandoned(Next(s, Timeout(k)), k)
    ensures Enabled(s, Sent) && s.writer == Reported(k, true) ==> Abandoned(Next(s, Sent), k)
  {
    RunKeepsInv(INITIAL, events);
    if k < |s.w.ops| {
      RemovedFromTable(s.w, k);
    }
  }

  /** Shutdown closes every pending request; a broken connection every one but that in flight. */
  lemma LostConnectionClosesPending(events: seq<Event>, s: State, k: nat)
    requires RunFrom(INITIAL, events) == Some(s) && s.running && s.reading && k in s.w.wait.Values
    ensures k < |s.w.ops| && Enabled(s, Quit) && Enabled(s, ReadErr)
    ensures Next(s, Quit).w.ops[k].closes == 1
    ensures Next(s, ReadErr).w.ops[k].closes == if s.lastOp == Some(k) then 0 else 1
  {
    RunKeepsInv(INITIAL, events);
    var id :| id in s.w.wait && s.w.wait[id] == k;
    assert EntryOk(s.w, id);
  }
}
