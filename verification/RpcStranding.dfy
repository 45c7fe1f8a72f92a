/**
  Requests that nobody will ever answer or close. A request is lost when no continuation of the run ends it;
  the theorems say how to tell from the state, and exactly which steps of the client lose a request.
 */
module RpcStranding {
  import opened Options
  import opened RequestOps
  import opened RpcDispatch

  /** The request expects a response and has got neither that nor the end of its connection. */
  predicate Open(s: State, k: nat) {
    k < |s.w.ops| && s.w.ops[k].ids != [] && s.w.ops[k].sent == [] && s.w.ops[k].closes == 0
  }

  /** After these events request `k` has been answered or closed. */
  predicate EndedBy(s: State, events: seq<Event>, k: nat) {
    var t := RunFrom(s, events);
    t.Some? && k < |t.value.w.ops| && (t.value.w.ops[k].sent != [] || t.value.w.ops[k].closes > 0)
  }

  ghost predicate CanEnd(s: State, k: nat) {
    exists events :: EndedBy(s, events, k)
  }

  /** No continuation whatever answers or closes the request: its caller waits for its own time-out. */
  ghost predicate Lost(s: State, k: nat) {
    Open(s, k) && !CanEnd(s, k)
  }

  /** The loop runs, and either reads for a table that holds the request or the request is being written. */
  predicate Alive(s: State, k: nat) {
    s.running && ((s.reading && k in s.w.wait.Values) || s.writer == Writing(k))
  }

  /** A request that is not alive stays open and not alive, whatever happens. */
  lemma DeadStaysDead(s: State, e: Event, k: nat)
    requires Inv(s) && Enabled(s, e) && Open(s, k) && !Alive(s, k)
    ensures Open(Next(s, e), k) && !Alive(Next(s, e), k)
  {
    match e
    case Read(batch, _, _) =>
      IndicesFollow(s.w);
      ResolveDelivers(s.w, batch);
      NotAnswered(s.w, batch, k);
    case Take(j) => assert OpOk(s.w.ops[j]);
    case _ =>
  }

  lemma {:induction false} DeadForever(s: State, events: seq<Event>, k: nat)
    requires Inv(s) && Open(s, k) && !Alive(s, k) && RunFrom(s, events).Some?
    ensures Open(RunFrom(s, events).value, k) && !Alive(RunFrom(s, events).value, k)
  {
    if events != [] {
      var n := |events| - 1;
      DeadForever(s, events[..n], k);
      RunKeepsInv(s, events[..n]);
      DeadStaysDead(RunFrom(s, events[..n]).value, events[n], k);
    }
  }

  lemma OneStep(s: State, e: Event)
    requires Enabled(s, e)
    ensures RunFrom(s, [e]) == Some(Next(s, e))
  {
    assert [e][..0] == [];
  }

  lemma TwoSteps(s: State, e: Event, f: Event)
    requires Enabled(s, e) && Enabled(Next(s, e), f)
    ensures RunFrom(s, [e, f]) == Some(Next(Next(s, e), f))
  {
    OneStep(s, e);
    assert [e, f][..1] == [e];
  }

  /** Shutting down closes what a reading loop has in its table; a write can still bring its request there. */
  lemma AliveCanEnd(s: State, k: nat) returns (events: seq<Event>)
    requires Inv(s) && Open(s, k) && Alive(s, k)
    ensures EndedBy(s, events, k)
  {
    if s.reading && k in s.w.wait.Values {
      events := [Quit];
      OneStep(s, Quit);
    } else {
      events := [Reconnect, Quit];
      StepKeepsInv(s, Reconnect);
      var t := Next(s, Reconnect);
      var id := s.w.ops[k].ids[0];
      assert id in t.w.wait && t.w.wait[id] == k;
      TwoSteps(s, Reconnect, Quit);
    }
  }

  /** An open request can still be answered or closed exactly while it is alive. */
  lemma CanEndIff(s: State, k: nat)
    requires Inv(s) && Open(s, k)
    ensures CanEnd(s, k) <==> Alive(s, k)
    ensures Lost(s, k) <==> !Alive(s, k)
  {
    if Alive(s, k) {
      var events := AliveCanEnd(s, k);
    } else {
      forall events ensures !EndedBy(s, events, k) {
        if RunFrom(s, events).Some? {
          DeadForever(s, events, k);
        }
      }
    }
  }

  // Which steps lose a request.

  predicate SameId(a: Op, b: Op) {
    exists i, j :: 0 <= i < |a.ids| && 0 <= j < |b.ids| && a.ids[i] == b.ids[j]
  }

  /** Every id belongs to one request, as the id counter makes them. */
  ghost predicate OwnIds(s: State) {
    forall j, k {:trigger s.w.ops[j], s.w.ops[k]} :: 0 <= j < k < |s.w.ops| ==> !SameId(s.w.ops[j], s.w.ops[k])
  }

  lemma IdOwner(s: State, id: string, j: nat, k: nat)
    requires OwnIds(s) && j < |s.w.ops| && k < |s.w.ops| && id in s.w.ops[j].ids && id in s.w.ops[k].ids
    ensures j == k
  {
    assert SameId(s.w.ops[j], s.w.ops[k]) && SameId(s.w.ops[k], s.w.ops[j]);
  }

  predicate ReadFor(s: State, k: nat) {
    s.reading && k in s.w.wait.Values
  }

  /**
    The steps that lose a request that can still end. Its write ends when no table is read for it: the
    connection broke meanwhile. The connection breaks when its write is over but the loop has not noticed. The
    loop shuts down without having it in a table it reads for. Or its caller gives up: the write failed, or
    the call timed out.
   */
  predicate Loses(s: State, e: Event, k: nat)
    requires Enabled(s, e)
  {
    match e
    case WriteDone(_) => s.writer == Writing(k) && !ReadFor(s, k)
    case ReadErr => s.writer.Reported? && s.lastOp == Some(k)
    case Quit => !ReadFor(s, k)
    case Sent => s.writer == Reported(k, true)
    case Timeout(j) => j == k
    case _ => false
  }

  lemma InTable(w: World, k: nat) returns (id: string)
    requires WorldOk(w) && k in w.wait.Values
    ensures id in w.wait && w.wait[id] == k && k < |w.ops| && id in w.ops[k].ids
  {
    id :| id in w.wait && w.wait[id] == k;
    assert EntryOk(w, id);
  }

  lemma InitKeepsOthers(s: State, ids: seq<string>, k: nat)
    requires Inv(s) && Enabled(s, Init(ids)) && OwnIds(Next(s, Init(ids))) && k in s.w.wait.Values
    ensures k in Next(s, Init(ids)).w.wait.Values
  {
    var t := Next(s, Init(ids));
    var id := InTable(s.w, k);
    assert t.w.ops[k] == s.w.ops[k];
    if id in ids {
      IdOwner(t, id, k, |s.w.ops|);
    }
    assert id in t.w.wait && t.w.wait[id] == k;
  }

  lemma DeregisterKeepsOthers(s: State, j: nat, k: nat)
    requires Inv(s) && OwnIds(s) && j < |s.w.ops| && j != k && k in s.w.wait.Values
    ensures k in Deregister(s.w, Some(j)).wait.Values
  {
    var v := Deregister(s.w, Some(j));
    var id := InTable(s.w, k);
    if id in s.w.ops[j].ids {
      IdOwner(s, id, j, k);
    }
    assert id in v.wait && v.wait[id] == k;
  }

  /** A request in the table that is not answered by the batch keeps its place there. */
  lemma ReadKeepsOthers(s: State, batch: Batch, k: nat)
    requires Inv(s) && OwnIds(s) && k in s.w.wait.Values && Open(s, k) && IndicesOk(s.w)
    ensures var v := Resolve(s.w, batch);
            |v.ops| == |s.w.ops| && (k in v.wait.Values || v.ops[k].sent != [])
  {
    ResolveDelivers(s.w, batch);
    var v := Resolve(s.w, batch);
    if Answered(s.w, batch, |batch|, k) {
      assert OpOk(s.w.ops[k]);
      assert v.ops[k] == Delivered(s.w.ops[k], batch);
    } else {
      var id := InTable(s.w, k);
      if id !in v.wait {
        var j: nat :| j < |s.w.ops| && Answered(s.w, batch, |batch|, j) && id in s.w.ops[j].ids;
        IdOwner(s, id, j, k);
      }
      assert id in v.wait && v.wait[id] == k;
    }
  }

  /** Exactly these steps turn an open request that is alive into an open one that is not. */
  lemma StepKillsIff(s: State, e: Event, k: nat)
    requires Inv(s) && Enabled(s, e) && Open(s, k) && Alive(s, k) && OwnIds(s) && OwnIds(Next(s, e))
    ensures Open(Next(s, e), k) && !Alive(Next(s, e), k) <==> Loses(s, e, k)
  {
    match e
    case Init(ids) => InitKeepsOthers(s, ids, k);
    case WriteDone(_) =>
    case Sent =>
      if s.writer.failed {
        RemovedFromTable(s.w, s.writer.k);
        if s.writer.k != k {
          DeregisterKeepsOthers(s, s.writer.k, k);
        }
      }
    case Reconnect =>
    case Timeout(j) =>
      RemovedFromTable(s.w, j);
      if j != k && k in s.w.wait.Values {
        DeregisterKeepsOthers(s, j, k);
      }
    case Read(batch, _, _) =>
      IndicesFollow(s.w);
      ResolveDelivers(s.w, batch);
      if k in s.w.wait.Values {
        ReadKeepsOthers(s, batch, k);
      }
    case ReadErr =>
    case Quit =>
    case Take(_) =>
  }

  /** Exactly these steps lose a request; in particular, a reconnect loses nobody. */
  lemma StepLosesIff(s: State, e: Event, k: nat)
    requires Inv(s) && Enabled(s, e) && Open(s, k) && CanEnd(s, k) && OwnIds(s) && OwnIds(Next(s, e))
    ensures Lost(Next(s, e), k) <==> Loses(s, e, k)
  {
    CanEndIff(s, k);
    StepKillsIff(s, e, k);
    StepKeepsInv(s, e);
    if Open(Next(s, e), k) {
      CanEndIff(Next(s, e), k);
    }
  }

  /** A lost request stays lost. */
  lemma LostForever(s: State, events: seq<Event>, k: nat)
    requires Inv(s) && Lost(s, k) && RunFrom(s, events).Some?
    ensures Lost(RunFrom(s, events).value, k)
  {
    CanEndIff(s, k);
    DeadForever(s, events, k);
    RunKeepsInv(s, events);
    CanEndIff(RunFrom(s, events).value, k);
  }

  /** Steps only add requests and never change ids. */
  lemma StepKeepsIds(s: State, e: Event, k: nat)
    requires Inv(s) && Enabled(s, e)
    ensures |s.w.ops| <= |Next(s, e).w.ops|
    ensures k < |s.w.ops| ==> Next(s, e).w.ops[k].ids == s.w.ops[k].ids
  {
    if e.Read? {
      IndicesFollow(s.w);
      ResolveDelivers(s.w, e.batch);
      if k < |s.w.ops| {
        assert Resolve(s.w, e.batch).ops[k].ids == s.w.ops[k].ids;
      }
    }
  }

  lemma OwnIdsBefore(s: State, e: Event)
    requires Inv(s) && Enabled(s, e) && OwnIds(Next(s, e))
    ensures OwnIds(s)
  {
    var t := Next(s, e);
    forall j: nat, k: nat | j < k < |s.w.ops| ensures !SameId(s.w.ops[j], s.w.ops[k]) {
      StepKeepsIds(s, e, j);
      StepKeepsIds(s, e, k);
      assert !SameId(t.w.ops[j], t.w.ops[k]);
    }
  }

  /** Event `i` of the run loses request `k`, which could still end until then. */
  predicate LosesAt(events: seq<Event>, i: nat, k: nat)
    requires i < |events|
  {
    var before := RunFrom(INITIAL, events[..i]);
    && before.Some? && Enabled(before.value, events[i])
    && Open(before.value, k) && Alive(before.value, k) && Loses(before.value, events[i], k)
  }

  predicate LostBy(events: seq<Event>, k: nat) {
    exists i :: 0 <= i < |events| && LosesAt(events, i, k)
  }

  lemma LostByStep(events: seq<Event>, k: nat)
    requires events != []
    ensures LostBy(events, k) <==> LostBy(events[..|events| - 1], k) || LosesAt(events, |events| - 1, k)
  {
    var n := |events| - 1;
    forall i | 0 <= i < n ensures LosesAt(events, i, k) <==> LosesAt(events[..n], i, k) {
      assert events[..n][..i] == events[..i];
    }
    if LosesAt(events, n, k) {
      assert LostBy(events, k);
    }
    if LostBy(events[..n], k) {
      var i :| 0 <= i < n && LosesAt(events[..n], i, k);
      assert LosesAt(events, i, k);
    }
  }

  /** A request that has just been accepted is being written. */
  lemma NewRequest(s: State, e: Event, k: nat)
    requires Inv(s) && Enabled(s, e) && |s.w.ops| <= k < |Next(s, e).w.ops|
    ensures Alive(Next(s, e), k)
  {
    if e.Read? {
      IndicesFollow(s.w);
      ResolveDelivers(s.w, e.batch);
    }
  }

  lemma ClosedStaysClosed(s: State, e: Event, k: nat)
    requires Inv(s) && Enabled(s, e) && k < |s.w.ops| && !Open(s, k)
    ensures !Open(Next(s, e), k)
  {
    StepKeepsIds(s, e, k);
    if e.Read? {
      IndicesFollow(s.w);
      ResolveDelivers(s.w, e.batch);
      assert Resolve(s.w, e.batch).ops[k].closes == s.w.ops[k].closes;
    }
  }

  predicate Dead(s: State, k: nat) {
    Open(s, k) && !Alive(s, k)
  }

  /** One step: dead afterwards is dead before, or killed by this step. */
  lemma DeadStep(s: State, e: Event, k: nat)
    requires Inv(s) && Enabled(s, e) && OwnIds(s) && OwnIds(Next(s, e))
    ensures Dead(Next(s, e), k) <==> Dead(s, k) || (Open(s, k) && Alive(s, k) && Loses(s, e, k))
  {
    if k >= |s.w.ops| {
      if k < |Next(s, e).w.ops| {
        NewRequest(s, e, k);
      }
    } else if !Open(s, k) {
      ClosedStaysClosed(s, e, k);
    } else if Alive(s, k) {
      StepKillsIff(s, e, k);
    } else {
      DeadStaysDead(s, e, k);
    }
  }

  lemma {:induction false} DeadExactlyWhen(events: seq<Event>, k: nat)
    requires RunFrom(INITIAL, events).Some? && OwnIds(RunFrom(INITIAL, events).value)
    ensures Dead(RunFrom(INITIAL, events).value, k) <==> LostBy(events, k)
  {
    if events != [] {
      var n := |events| - 1;
      var s, e := RunFrom(INITIAL, events[..n]).value, events[n];
      RunKeepsInv(INITIAL, events[..n]);
      OwnIdsBefore(s, e);
      DeadExactlyWhen(events[..n], k);
      LostByStep(events, k);
      DeadStep(s, e, k);
    }
  }

  /**
    Over every run of requests with ids of their own: a request is lost at the end, that is no continuation
    answers or closes it, exactly when some step of the run lost it.
   */
  lemma LostExactlyWhen(events: seq<Event>, k: nat)
    requires RunFrom(INITIAL, events).Some? && OwnIds(RunFrom(INITIAL, events).value)
    ensures Lost(RunFrom(INITIAL, events).value, k) <==> LostBy(events, k)
  {
    var s := RunFrom(INITIAL, events).value;
    RunKeepsInv(INITIAL, events);
    DeadExactlyWhen(events, k);
    if Open(s, k) {
      CanEndIff(s, k);
    }
  }

  // Runs that lose a request.

  lemma Extend(events: seq<Event>, n: nat, s: State)
    requires n < |events| && RunFrom(INITIAL, events[..n]) == Some(s) && Enabled(s, events[n])
    ensures RunFrom(INITIAL, events[..n + 1]) == Some(Next(s, events[n]))
  {
    assert events[..n + 1][..n] == events[..n];
  }

  lemma OneId(wait: map<string, nat>, id: string, k: nat)
    ensures Added(wait, [id], k) == wait[id := k]
  {
    assert IdSet([id]) == {id} by {
      assert [id][0] == id;
    }
  }

  /** The loop while the first request of a client is being written. */
  function FirstWrite(id: string, reading: bool): State {
    State(World([Op([id], false, None, [], 0)], if reading then map[id := 0] else map[], None),
          Some(0), false, reading, true, Writing(0))
  }

  lemma FirstInit(events: seq<Event>, id: string)
    requires events != [] && events[0] == Init([id])
    ensures RunFrom(INITIAL, events[..1]) == Some(FirstWrite(id, true))
  {
    assert events[..0] == [];
    Extend(events, 0, INITIAL);
    OneId(map[], id, 0);
    assert Next(INITIAL, Init([id])) == FirstWrite(id, true) by {
      assert Next(INITIAL, Init([id])).w.ops == FirstWrite(id, true).w.ops;
    }
  }

  /**
    The connection breaks between the write of a request and the loop's notice of it: the table is emptied
    and the request, still in flight for the loop, is spared from closing. This can happen on any transport.
   */
  lemma WrittenRequestIsLostByBreak(id: string)
    ensures var events := [Init([id]), WriteDone(false), ReadErr];
            RunFrom(INITIAL, events).Some? && Lost(RunFrom(INITIAL, events).value, 0)
  {
    var e: seq<Event> := [Init([id]), WriteDone(false), ReadErr];
    assert e[..3] == e;
    FirstInit(e, id);
    Extend(e, 1, FirstWrite(id, true));
    var s := Next(FirstWrite(id, true), WriteDone(false));
    Extend(e, 2, s);
    RunKeepsInv(INITIAL, e);
    CanEndIff(Next(s, ReadErr), 0);
  }

  /** The same with the break noticed before the end of the write: the request is lost when its write ends. */
  lemma InFlightRequestIsLost(id: string)
    ensures var events := [Init([id]), ReadErr, WriteDone(false)];
            && RunFrom(INITIAL, events[..2]).Some? && CanEnd(RunFrom(INITIAL, events[..2]).value, 0)
            && RunFrom(INITIAL, events).Some? && Lost(RunFrom(INITIAL, events).value, 0)
  {
    var e: seq<Event> := [Init([id]), ReadErr, WriteDone(false)];
    assert e[..3] == e && e[..2] == [Init([id]), ReadErr];
    FirstInit(e, id);
    Extend(e, 1, FirstWrite(id, true));
    var s := Next(FirstWrite(id, true), ReadErr);
    assert s == FirstWrite(id, false) by {
      assert s.w.ops == FirstWrite(id, false).w.ops;
    }
    RunKeepsInv(INITIAL, e[..2]);
    CanEndIff(s, 0);
    Extend(e, 2, s);
    RunKeepsInv(INITIAL, e);
    CanEndIff(Next(s, WriteDone(false)), 0);
  }

  /**
    After a read error whose connection still takes writes, as standard input and output do because closing
    them has no effect, a request is lost as soon as its write ends: a client that makes no other call waits
    for ever, and neither a later reconnect nor a shutdown changes that.
   */
  lemma LaterRequestIsLost(id: string)
    ensures var events := [ReadErr, Init([id]), WriteDone(false)];
            && RunFrom(INITIAL, events[..2]).Some? && CanEnd(RunFrom(INITIAL, events[..2]).value, 0)
            && RunFrom(INITIAL, events).Some? && Lost(RunFrom(INITIAL, events).value, 0)
  {
    var e: seq<Event> := [ReadErr, Init([id]), WriteDone(false)];
    assert e[..0] == [] && e[..3] == e && e[..2] == [ReadErr, Init([id])];
    Extend(e, 0, INITIAL);
    var s1 := Next(INITIAL, ReadErr);
    assert s1 == INITIAL.(reading := false) by {
      assert s1.w.ops == [];
    }
    Extend(e, 1, s1);
    var s2 := FirstWrite(id, true).(reading := false);
    OneId(map[], id, 0);
    assert Next(s1, Init([id])) == s2;
    RunKeepsInv(INITIAL, e[..2]);
    CanEndIff(s2, 0);
    Extend(e, 2, s2);
    RunKeepsInv(INITIAL, e);
    CanEndIff(Next(s2, WriteDone(false)), 0);
  }

  /** A client that shuts down while the connection is broken does not close the request being written. */
  lemma ShutdownLosesTheWrite(id: string)
    ensures var events := [Init([id]), ReadErr, Quit];
            && RunFrom(INITIAL, events[..2]).Some? && CanEnd(RunFrom(INITIAL, events[..2]).value, 0)
            && RunFrom(INITIAL, events).Some? && Lost(RunFrom(INITIAL, events).value, 0)
  {
    var e: seq<Event> := [Init([id]), ReadErr, Quit];
    assert e[..3] == e && e[..2] == [Init([id]), ReadErr];
    FirstInit(e, id);
    Extend(e, 1, FirstWrite(id, true));
    var s := Next(FirstWrite(id, true), ReadErr);
    RunKeepsInv(INITIAL, e[..2]);
    CanEndIff(s, 0);
    Extend(e, 2, s);
    RunKeepsInv(INITIAL, e);
    CanEndIff(Next(s, Quit), 0);
  }
}
