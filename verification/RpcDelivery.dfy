/**
  What the dispatch loop delivers: which reads bring which request its answer, and over a run, what the
  caller of an accepted request gets.
 */
module RpcDelivery {
  import opened Options
  import opened JsonRpc
  import opened RequestOps
  import opened RpcDispatch
  import opened RpcStranding

  /** Message `i` of the batch is a response to an id the table has for operation `k`. */
  predicate AnswersAt(s: State, batch: Batch, i: int, k: nat)
    requires 0 <= i < |batch|
  {
    IsResponse(batch[i]) && batch[i].id.value in s.w.wait && s.w.wait[batch[i].id.value] == k
  }

  predicate AnswersOp(s: State, batch: Batch, k: nat) {
    exists i {:trigger AnswersAt(s, batch, i, k)} :: 0 <= i < |batch| && AnswersAt(s, batch, i, k)
  }

  lemma AnswersOpIs(s: State, batch: Batch, k: nat)
    ensures AnswersOp(s, batch, k) <==> Answered(s.w, batch, |batch|, k)
  {
    if Answered(s.w, batch, |batch|, k) {
      var i :| && 0 <= i < |batch| && IsResponse(batch[i]) && batch[i].id.value in s.w.wait
               && s.w.wait[batch[i].id.value] == k;
      assert AnswersAt(s, batch, i, k);
    }
  }

  /** A single message, or a batch that is neither empty nor over the limit; 0 is no limit. */
  predicate Admitted(batch: Batch, isBatch: bool, limit: nat) {
    !isBatch || (batch != [] && (limit == 0 || |batch| <= limit))
  }

  /** The id is one of a request that the batch answers. */
  ghost predicate Leaves(s: State, batch: Batch, id: string) {
    exists k: nat {:trigger AnswersOp(s, batch, k)} ::
      k < |s.w.ops| && AnswersOp(s, batch, k) && id in s.w.ops[k].ids
  }

  /**
    From `s` to `t` the batch went into the channel of every request it answers that had nothing yet, exactly the
    answered requests' ids left the table, and nothing else changed.
   */
  ghost predicate Delivers(s: State, t: State, batch: Batch) {
    && |t.w.ops| == |s.w.ops| && t == s.(w := t.w) && t.w.fault == s.w.fault
    && (forall k: nat {:trigger t.w.ops[k]} :: k < |s.w.ops| ==>
          t.w.ops[k] == if AnswersOp(s, batch, k) && s.w.ops[k].sent == []
                        then s.w.ops[k].(hadResponse := true, buffer := Some(batch), sent := [batch])
                        else s.w.ops[k])
    && (forall id {:trigger id in t.w.wait} :: id in t.w.wait <==> id in s.w.wait && !Leaves(s, batch, id))
    && (forall id {:trigger id in t.w.wait} :: id in t.w.wait ==> t.w.wait[id] == s.w.wait[id])
  }

  /** In every reachable state an admitted read delivers its batch, and any other read changes nothing. */
  lemma ReadDelivers(events: seq<Event>, s: State, batch: Batch, isBatch: bool, limit: nat)
    requires RunFrom(INITIAL, events) == Some(s) && Enabled(s, Read(batch, isBatch, limit))
    ensures var t := Next(s, Read(batch, isBatch, limit));
            if Admitted(batch, isBatch, limit) then Delivers(s, t, batch) else t == s
  {
    RunKeepsInv(INITIAL, events);
    ReadStep(s, batch, isBatch, limit);
  }

  lemma ReadStep(s: State, batch: Batch, isBatch: bool, limit: nat)
    requires Inv(s) && Enabled(s, Read(batch, isBatch, limit))
    ensures var t := Next(s, Read(batch, isBatch, limit));
            if Admitted(batch, isBatch, limit) then Delivers(s, t, batch) else t == s
  {
    IndicesFollow(s.w);
    if Admitted(batch, isBatch, limit) {
      OpsStep(s, batch);
      forall id { TableStep(s, batch, id); }
    }
  }

  lemma OpsStep(s: State, batch: Batch)
    requires Inv(s) && IndicesOk(s.w)
    ensures var v := Resolve(s.w, batch);
            && |v.ops| == |s.w.ops| && v.fault == s.w.fault
            && forall k: nat {:trigger v.ops[k]} :: k < |s.w.ops| ==>
                 v.ops[k] == if AnswersOp(s, batch, k) && s.w.ops[k].sent == []
                             then s.w.ops[k].(hadResponse := true, buffer := Some(batch), sent := [batch])
                             else s.w.ops[k]
  {
    ResolveDelivers(s.w, batch);
    forall k: nat | k < |s.w.ops|
      ensures AnswersOp(s, batch, k) <==> Answered(s.w, batch, |batch|, k)
      ensures OpOk(s.w.ops[k])
    {
      AnswersOpIs(s, batch, k);
    }
  }

  lemma TableStep(s: State, batch: Batch, id: string)
    requires Inv(s) && IndicesOk(s.w)
    ensures id in Resolve(s.w, batch).wait <==> id in s.w.wait && !Leaves(s, batch, id)
    ensures id in Resolve(s.w, batch).wait ==> Resolve(s.w, batch).wait[id] == s.w.wait[id]
  {
    ResolveDelivers(s.w, batch);
    forall k: nat ensures AnswersOp(s, batch, k) <==> Answered(s.w, batch, |batch|, k) {
      AnswersOpIs(s, batch, k);
    }
  }

  /** While the loop runs, at most the end of the current write stands before the next request. */
  lemma NextRequestIsAccepted(events: seq<Event>, s: State, ids: seq<string>) returns (more: seq<Event>, t: State)
    requires RunFrom(INITIAL, events) == Some(s) && s.running
    ensures more in [[], [Sent], [WriteDone(false), Sent]]
    ensures RunFrom(s, more) == Some(t) && Enabled(t, Init(ids)) && t.w == s.w.(wait := t.w.wait)
    ensures (s.writer.Reported? && s.writer.failed) || t.w.wait == s.w.wait
  {
    RunKeepsInv(INITIAL, events);
    match s.writer
    case NoWriter => more, t := [], s;
    case Reported(k, failed) =>
      more, t := [Sent], Next(s, Sent);
      OneStep(s, Sent);
    case Writing(k) =>
      more, t := [WriteDone(false), Sent], Next(Next(s, WriteDone(false)), Sent);
      TwoSteps(s, WriteDone(false), Sent);
  }

  // What the caller of an accepted request gets.

  predicate AnswersRequest(e: Event, ids: seq<string>) {
    e.Read? && Admitted(e.batch, e.isBatch, e.limit) && AnswersIds(e.batch, ids)
  }

  /** The first admitted batch among the events with a response to one of these ids. */
  function FirstAnswer(events: seq<Event>, ids: seq<string>): seq<Batch> {
    if events == [] then []
    else
      var n := |events| - 1;
      var before := FirstAnswer(events[..n], ids);
      if before == [] && AnswersRequest(events[n], ids) then [events[n].batch] else before
  }

  predicate WroteSince(events: seq<Event>) {
    exists i :: 0 <= i < |events| && events[i].WriteDone?
  }

  /**
    After request `k` was accepted: the connection stays, its caller does not give up, the loop runs, and its
    write, which is the first to end, succeeds. A reconnect during that write is allowed.
   */
  predicate Undisturbed(events: seq<Event>, k: nat) {
    events == [] ||
    var n := |events| - 1;
    && Undisturbed(events[..n], k)
    && !events[n].ReadErr? && !events[n].Quit? && events[n] != Timeout(k)
    && (events[n] == WriteDone(true) ==> WroteSince(events[..n]))
    && (events[n].Reconnect? ==> !WroteSince(events[..n]))
  }

  /** The request and its writer, `wrote` when the write is over and `sent` when it was answered. */
  ghost predicate IsServed(s: State, k: nat, ids: seq<string>, wrote: bool, sent: seq<Batch>) {
    && s.running && s.reading && k < |s.w.ops|
    && s.w.ops[k].ids == ids && s.w.ops[k].sent == sent && s.w.ops[k].closes == 0
    && (sent == [] ==> forall id {:trigger Points(s, id, k)} :: id in ids ==> Points(s, id, k))
    && (if wrote then s.writer != Writing(k) && s.writer != Reported(k, true) else s.writer == Writing(k))
  }

  predicate Points(s: State, id: string, k: nat) {
    id in s.w.wait && s.w.wait[id] == k
  }

  /** Accepting a request registers all its ids. */
  lemma InitRegisters(s: State, ids: seq<string>)
    requires Inv(s) && Enabled(s, Init(ids)) && s.reading
    ensures IsServed(Next(s, Init(ids)), |s.w.ops|, ids, false, [])
  {}

  lemma WroteStep(events: seq<Event>)
    requires events != []
    ensures var n := |events| - 1; WroteSince(events) <==> WroteSince(events[..n]) || events[n].WriteDone?
  {
    var n := |events| - 1;
    if WroteSince(events[..n]) {
      var i :| 0 <= i < n && events[..n][i].WriteDone?;
      assert events[i].WriteDone?;
    }
    if WroteSince(events) && !events[n].WriteDone? {
      var i :| 0 <= i < |events| && events[i].WriteDone?;
      assert events[..n][i].WriteDone?;
    }
  }

  /** Taking the ids of another request out of the table leaves this one's in. */
  lemma OtherIdsLeave(s: State, j: nat, k: nat, id: string)
    requires OwnIds(s) && j < |s.w.ops| && k < |s.w.ops| && j != k && id in s.w.ops[k].ids
    ensures id !in IdSet(s.w.ops[j].ids)
  {
    if id in IdSet(s.w.ops[j].ids) {
      IdOwner(s, id, j, k);
    }
  }

  lemma ServedByRead(s: State, e: Event, k: nat, ids: seq<string>, wrote: bool, sent: seq<Batch>)
    requires Inv(s) && Enabled(s, e) && OwnIds(s) && IsServed(s, k, ids, wrote, sent) && e.Read?
    ensures IsServed(Next(s, e), k, ids, wrote, if sent == [] && AnswersRequest(e, ids) then [e.batch] else sent)
  {
    var t, batch := Next(s, e), e.batch;
    ReadStep(s, batch, e.isBatch, e.limit);
    if sent == [] {
      AnswersByIds(s, batch, k, ids);
      if !AnswersRequest(e, ids) {
        forall id | id in ids ensures Points(t, id, k) {
          assert Points(s, id, k);
          NotLeaving(s, batch, k, id);
        }
      }
    }
  }

  /** With its ids all in the table, a request is answered by a response to any of them. */
  lemma AnswersByIds(s: State, batch: Batch, k: nat, ids: seq<string>)
    requires Inv(s) && k < |s.w.ops| && s.w.ops[k].ids == ids
    requires forall id {:trigger Points(s, id, k)} :: id in ids ==> Points(s, id, k)
    ensures AnswersOp(s, batch, k) <==> AnswersIds(batch, ids)
  {
    if AnswersOp(s, batch, k) {
      var i :| 0 <= i < |batch| && AnswersAt(s, batch, i, k);
      assert EntryOk(s.w, batch[i].id.value);
    }
    if AnswersIds(batch, ids) {
      var i :| 0 <= i < |batch| && IsResponse(batch[i]) && batch[i].id.value in ids;
      assert Points(s, batch[i].id.value, k);
      assert AnswersAt(s, batch, i, k);
    }
  }

  lemma NotLeaving(s: State, batch: Batch, k: nat, id: string)
    requires OwnIds(s) && k < |s.w.ops| && id in s.w.ops[k].ids
    ensures Leaves(s, batch, id) ==> AnswersOp(s, batch, k)
  {
    if Leaves(s, batch, id) {
      var j: nat :| j < |s.w.ops| && AnswersOp(s, batch, j) && id in s.w.ops[j].ids;
      IdOwner(s, id, j, k);
    }
  }

  /** The other steps that do not disturb the request leave it as it is. */
  lemma ServedByOther(s: State, e: Event, k: nat, ids: seq<string>, wrote: bool, sent: seq<Batch>)
    requires Inv(s) && Enabled(s, e) && OwnIds(s) && OwnIds(Next(s, e)) && IsServed(s, k, ids, wrote, sent)
    requires !e.Read? && !e.ReadErr? && !e.Quit? && e != Timeout(k) && !(e == WriteDone(true) && !wrote)
    requires e.Reconnect? ==> !wrote
    ensures IsServed(Next(s, e), k, ids, wrote || e.WriteDone?, sent)
  {
    var t := Next(s, e);
    StepKeepsIds(s, e, k);
    if sent == [] {
      forall id | id in ids ensures Points(t, id, k) {
        assert Points(s, id, k);
        PointsStep(s, e, k, id);
      }
    }
  }

  lemma PointsStep(s: State, e: Event, k: nat, id: string)
    requires Inv(s) && Enabled(s, e) && OwnIds(s) && OwnIds(Next(s, e))
    requires s.running && k < |s.w.ops| && id in s.w.ops[k].ids && Points(s, id, k)
    requires !e.Read? && !e.ReadErr? && !e.Quit? && e != Timeout(k) && s.writer != Reported(k, true)
    requires e.Reconnect? ==> s.writer == Writing(k)
    ensures Points(Next(s, e), id, k)
  {
    var t := Next(s, e);
    match e
    case Init(ids) => OtherIdsLeave(t, |s.w.ops|, k, id);
    case Timeout(j) => OtherIdsLeave(s, j, k, id);
    case Sent =>
      if s.writer.failed {
        OtherIdsLeave(s, s.writer.k, k, id);
      }
    case _ =>
  }

  /**
    The caller of a request that was accepted on a live connection, and that nothing disturbs, has been sent
    exactly the first admitted batch with a response to one of its ids, or nothing if none came, and then all
    its ids are still registered.
   */
  lemma {:induction false} AcceptedRequestIsAnswered(s: State, ids: seq<string>, events: seq<Event>)
    requires Inv(s) && Enabled(s, Init(ids)) && s.reading && Undisturbed(events, |s.w.ops|)
    requires var end := RunFrom(Next(s, Init(ids)), events); end.Some? && OwnIds(end.value)
    ensures IsServed(RunFrom(Next(s, Init(ids)), events).value, |s.w.ops|, ids,
                     WroteSince(events), FirstAnswer(events, ids))
  {
    var s0, k := Next(s, Init(ids)), |s.w.ops|;
    StepKeepsInv(s, Init(ids));
    if events == [] {
      InitRegisters(s, ids);
    } else {
      var n := |events| - 1;
      var u, e := RunFrom(s0, events[..n]).value, events[n];
      RunKeepsInv(s0, events[..n]);
      OwnIdsBefore(u, e);
      AcceptedRequestIsAnswered(s, ids, events[..n]);
      WroteStep(events);
      var wrote, sent := WroteSince(events[..n]), FirstAnswer(events[..n], ids);
      if e.Read? {
        ServedByRead(u, e, k, ids, wrote, sent);
      } else {
        ServedByOther(u, e, k, ids, wrote, sent);
      }
    }
  }
}
