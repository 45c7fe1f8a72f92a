/**
  Pending requests of an RPC handler (`respWait`, `addRequestOp`, `removeRequestOp`, `cancelAllRequests`,
  `handleResponses` in `handler.go`). Request operations are identified by their position in `ops`; each
  has a response channel with one buffer slot.
 */
module RequestOps {
  import opened Options
  import opened JsonRpc

  type Batch = seq<Message>

  /** A requestOp: the buffer of its channel, and how often it was sent to and closed. */
  datatype Op = Op(ids: seq<string>, hadResponse: bool, buffer: Option<Batch>, sent: seq<Batch>, closes: nat)

  /** Misuse of a channel or pointer that would crash or block the dispatch loop. */
  datatype Fault = SendOnClosed | SendBlocks | CloseOfClosed | NilRequest

  /** The operations, the current handler's table, and the first misuse if any. */
  datatype World = World(ops: seq<Op>, wait: map<string, nat>, fault: Option<Fault>)

  function Failed(w: World, f: Fault): World {
    if w.fault.Some? then w else w.(fault := Some(f))
  }

  function IdSet(ids: seq<string>): set<string> {
    set i | 0 <= i < |ids| :: ids[i]
  }

  /** The table after `addRequestOp`. */
  function Added(wait: map<string, nat>, ids: seq<string>, k: nat): map<string, nat> {
    map id | id in wait.Keys + IdSet(ids) :: if id in IdSet(ids) then k else wait[id]
  }

  lemma AddedStep(wait: map<string, nat>, ids: seq<string>, i: nat, k: nat)
    requires i < |ids|
    ensures Added(wait, ids[..i + 1], k) == Added(wait, ids[..i], k)[ids[i] := k]
  {
    assert IdSet(ids[..i + 1]) == IdSet(ids[..i]) + {ids[i]};
  }

  /** Send on the response channel. */
  function SendTo(w: World, k: nat, batch: Batch): World
    requires k < |w.ops|
  {
    if w.ops[k].closes > 0 then Failed(w, SendOnClosed)
    else if w.ops[k].buffer.Some? then Failed(w, SendBlocks)
    else w.(ops := w.ops[k := w.ops[k].(buffer := Some(batch), sent := w.ops[k].sent + [batch])])
  }

  /** Close the response channel. */
  function Close(w: World, k: nat): World
    requires k < |w.ops|
  {
    if w.ops[k].closes > 0 then Failed(w, CloseOfClosed)
    else w.(ops := w.ops[k := w.ops[k].(closes := 1)])
  }

  /** The table only names operations that have the id and are not closed. */
  predicate EntryOk(w: World, id: string)
    requires id in w.wait
  {
    w.wait[id] < |w.ops| && id in w.ops[w.wait[id]].ids && w.ops[w.wait[id]].closes == 0
  }

  predicate OpOk(op: Op) {
    && |op.sent| <= 1
    && op.closes <= 1
    && (op.hadResponse <==> |op.sent| == 1)
    && (op.buffer.Some? ==> |op.sent| == 1)
    && (forall b :: b in op.sent ==> AnswersIds(b, op.ids))
  }

  /** The batch holds a response to one of these ids. */
  predicate AnswersIds(batch: Batch, ids: seq<string>) {
    exists i :: 0 <= i < |batch| && IsResponse(batch[i]) && batch[i].id.value in ids
  }

  ghost predicate WorldOk(w: World) {
    && w.fault.None?
    && (forall id {:trigger EntryOk(w, id)} :: id in w.wait ==> EntryOk(w, id))
    && (forall k {:trigger w.ops[k]} :: 0 <= k < |w.ops| ==> OpOk(w.ops[k]))
  }

  // handleResponses

  /** `handleResp` for one response of the batch, without the list of resolved operations. */
  function Respond(w: World, batch: Batch, id: string): World
    requires id in w.wait ==> w.wait[id] < |w.ops|
  {
    if id !in w.wait then w
    else
      var k := w.wait[id];
      var v := w.(wait := w.wait - {id});
      if w.ops[k].hadResponse then v
      else SendTo(v.(ops := v.ops[k := v.ops[k].(hadResponse := true)]), k, batch)
  }

  predicate IndicesOk(w: World) {
    forall id :: id in w.wait ==> w.wait[id] < |w.ops|
  }

  /** The loop of `handleResponses` over a batch: world, resolved operations and calls collected. */
  datatype Progress = Progress(w: World, resolved: seq<nat>, calls: seq<Message>)

  predicate Known(resolved: seq<nat>, n: nat) {
    forall i :: 0 <= i < |resolved| ==> resolved[i] < n
  }

  predicate ProgressOk(p: Progress) {
    IndicesOk(p.w) && Known(p.resolved, |p.w.ops|)
  }

  function Handle(p: Progress, batch: Batch, m: Message): (r: Progress)
    requires ProgressOk(p)
    ensures ProgressOk(r) && |r.w.ops| == |p.w.ops|
  {
    if IsResponse(m) then
      if m.id.value in p.w.wait
      then Progress(Respond(p.w, batch, m.id.value), p.resolved + [p.w.wait[m.id.value]], p.calls)
      else p
    else if IsSubscriptionResult(m) then p
    else p.(calls := p.calls + [m])
  }

  function Handled(w: World, batch: Batch, n: nat): (r: Progress)
    requires IndicesOk(w) && n <= |batch|
    ensures ProgressOk(r) && |r.w.ops| == |w.ops|
  {
    if n == 0 then Progress(w, [], []) else Handle(Handled(w, batch, n - 1), batch, batch[n - 1])
  }

  /** The table after `removeRequestOp` of every listed operation. */
  function Dropped(wait: map<string, nat>, ops: seq<Op>, resolved: seq<nat>): map<string, nat>
    requires Known(resolved, |ops|)
  {
    if resolved == [] then wait
    else
      var n := |resolved| - 1;
      Dropped(wait, ops, resolved[..n]) - IdSet(ops[resolved[n]].ids)
  }

  function Resolve(w: World, batch: Batch): World
    requires IndicesOk(w)
  {
    var p := Handled(w, batch, |batch|);
    p.w.(wait := Dropped(p.w.wait, p.w.ops, p.resolved))
  }

  /** The messages of a batch for the call path, in order. */
  function CallPath(batch: Batch): seq<Message> {
    if batch == [] then []
    else
      var n := |batch| - 1;
      if ForCallPath(batch[n]) then CallPath(batch[..n]) + [batch[n]] else CallPath(batch[..n])
  }

  lemma {:induction false} CallsAreCallPath(w: World, batch: Batch, n: nat)
    requires IndicesOk(w) && n <= |batch|
    ensures Handled(w, batch, n).calls == CallPath(batch[..n])
  {
    if n > 0 {
      CallsAreCallPath(w, batch, n - 1);
      assert batch[..n][..n - 1] == batch[..n - 1];
    }
  }

  // cancelAllRequests

  predicate Cancels(w: World, inflight: Option<nat>, k: nat) {
    k in w.wait.Values && inflight != Some(k)
  }

  /** Every operation in the table is closed once, except the one in flight; the table is emptied. */
  function Cancelled(w: World, inflight: Option<nat>): World {
    World(seq(|w.ops|, k requires 0 <= k < |w.ops| =>
                if Cancels(w, inflight, k) then w.ops[k].(closes := w.ops[k].closes + 1) else w.ops[k]),
          map[], w.fault)
  }

  class Handler {
    var w: World

    constructor (ops: seq<Op>)
      ensures w == World(ops, map[], None)
    {
      w := World(ops, map[], None);
    }

    /** `addRequestOp` */
    method AddRequestOp(k: nat)
      requires k < |w.ops|
      modifies this
      ensures w == old(w).(wait := Added(old(w).wait, old(w).ops[k].ids, k))
    {
      var ids := w.ops[k].ids;
      for i := 0 to |ids|
        invariant w == old(w).(wait := w.wait)
        invariant w.wait == Added(old(w).wait, ids[..i], k)
      {
        AddedStep(old(w).wait, ids, i, k);
        w := w.(wait := w.wait[ids[i] := k]);
      }
      assert ids[..|ids|] == ids;
    }

    /** `removeRequestOp` */
    method RemoveRequestOp(k: nat)
      requires k < |w.ops|
      modifies this
      ensures w == old(w).(wait := old(w).wait - IdSet(old(w).ops[k].ids))
    {
      var ids := w.ops[k].ids;
      for i := 0 to |ids|
        invariant w == old(w).(wait := w.wait)
        invariant w.wait == old(w).wait - IdSet(ids[..i])
      {
        assert IdSet(ids[..i + 1]) == IdSet(ids[..i]) + {ids[i]};
        w := w.(wait := w.wait - {ids[i]});
      }
      assert ids[..|ids|] == ids;
    }

    /** `handleResponses`: the calls it passes on are returned. */
    method HandleResponses(batch: Batch) returns (calls: seq<Message>)
      requires IndicesOk(w)
      modifies this
      ensures w == Resolve(old(w), batch)
      ensures calls == CallPath(batch)
    {
      CallsAreCallPath(w, batch, |batch|);
      assert batch[..|batch|] == batch;
      var resolved;
      resolved, calls := DeliverResponses(batch);
      RemoveResolved(resolved);
    }

    /** The loop over the messages. */
    method DeliverResponses(batch: Batch) returns (resolved: seq<nat>, calls: seq<Message>)
      requires IndicesOk(w)
      modifies this
      ensures Progress(w, resolved, calls) == Handled(old(w), batch, |batch|)
    {
      resolved, calls := [], [];
      for i := 0 to |batch|
        invariant ProgressOk(Progress(w, resolved, calls)) && Progress(w, resolved, calls) == Handled(old(w), batch, i)
      {
        var m := batch[i];
        if IsResponse(m) {
          var id := m.id.value;
          if id in w.wait {
            resolved := resolved + [w.wait[id]];
            w := Respond(w, batch, id);
          }
        } else if IsNotification(m) {
          if !HasSuffix(m.name, NOTIFICATION_METHOD_SUFFIX) {
            calls := calls + [m];
          }
        } else {
          calls := calls + [m];
        }
      }
    }

    /** The loop over the resolved operations. */
    method RemoveResolved(resolved: seq<nat>)
      requires Known(resolved, |w.ops|)
      modifies this
      ensures w == old(w).(wait := Dropped(old(w).wait, old(w).ops, resolved))
    {
      for j := 0 to |resolved|
        invariant w == old(w).(wait := Dropped(old(w).wait, old(w).ops, resolved[..j]))
      {
        assert resolved[..j + 1][..j] == resolved[..j];
        RemoveRequestOp(resolved[j]);
      }
      assert resolved[..|resolved|] == resolved;
    }

    /** `cancelAllRequests`: the table is visited in any order, with `didClose` guarding a second close. */
    method CancelAllRequests(inflight: Option<nat>)
      requires WorldOk(w)
      modifies this
      ensures w == Cancelled(old(w), inflight)
    {
      var didClose: set<nat> := if inflight.Some? then {inflight.value} else {};
      var todo := w.wait.Keys;
      while todo != {}
        invariant CancelledSoFar(old(w), w, inflight, didClose, todo)
        decreases todo
      {
        var id :| id in todo;
        todo := todo - {id};
        var k := w.wait[id];
        CancelOne(old(w), w, inflight, didClose, todo, id);
        w := w.(wait := w.wait - {id});
        if k !in didClose {
          w := Close(w, k);
          didClose := didClose + {k};
        }
      }
      CancelledAll(old(w), w, inflight, didClose);
    }
  }

  /** Between two rounds of the loop: `todo` is what is left of the table. */
  ghost predicate CancelledSoFar(w0: World, w: World, inflight: Option<nat>, didClose: set<nat>, todo: set<string>) {
    && w.fault == w0.fault && |w.ops| == |w0.ops|
    && w.wait.Keys == todo && todo <= w0.wait.Keys
    && (forall id :: id in todo ==> w.wait[id] == w0.wait[id])
    && (forall k {:trigger k in didClose} :: k in didClose <==> inflight == Some(k) || Visited(w0, todo, k))
    && (forall k {:trigger w.ops[k]} :: 0 <= k < |w.ops| ==>
          w.ops[k] == if k in didClose && inflight != Some(k) then w0.ops[k].(closes := w0.ops[k].closes + 1)
                      else w0.ops[k])
  }

  /** Some id of operation `k` has been taken out of the table. */
  ghost predicate Visited(w0: World, todo: set<string>, k: nat) {
    exists id :: id in w0.wait && id !in todo && w0.wait[id] == k
  }

  lemma CancelOne(w0: World, w: World, inflight: Option<nat>, didClose: set<nat>, todo: set<string>, id: string)
    requires WorldOk(w0) && CancelledSoFar(w0, w, inflight, didClose, todo + {id}) && id !in todo
    ensures id in w.wait && w.wait[id] < |w.ops|
    ensures var k := w.wait[id];
            var v := w.(wait := w.wait - {id});
            CancelledSoFar(w0, if k in didClose then v else Close(v, k), inflight, didClose + {k}, todo)
  {
    var k := w.wait[id];
    assert EntryOk(w0, id);
    forall j: nat ensures Visited(w0, todo, j) <==> Visited(w0, todo + {id}, j) || j == k {
      if j == k {
        assert id in w0.wait && id !in todo && w0.wait[id] == k;
      }
    }
  }

  lemma CancelledAll(w0: World, w: World, inflight: Option<nat>, didClose: set<nat>)
    requires CancelledSoFar(w0, w, inflight, didClose, {})
    ensures w == Cancelled(w0, inflight)
  {
    forall k: nat | k < |w.ops| ensures w.ops[k] == Cancelled(w0, inflight).ops[k] {
      assert Visited(w0, {}, k) <==> k in w0.wait.Values;
    }
    assert w.wait == map[];
    assert w.ops == Cancelled(w0, inflight).ops;
  }

  // What these steps do, said without following their loops.

  /** Some response of the first `n` messages is for operation `k` of the table. */
  ghost predicate Answered(w: World, batch: Batch, n: nat, k: nat)
    requires n <= |batch|
  {
    exists i :: 0 <= i < n && IsResponse(batch[i]) && batch[i].id.value in w.wait && w.wait[batch[i].id.value] == k
  }

  /** Some response of the first `n` messages has this id. */
  predicate Seen(batch: Batch, n: nat, id: string)
    requires n <= |batch|
  {
    exists i :: 0 <= i < n && IsResponse(batch[i]) && batch[i].id.value == id
  }

  function Delivered(op: Op, batch: Batch): Op {
    op.(hadResponse := true, buffer := Some(batch), sent := op.sent + [batch])
  }

  /** An operation after a batch that answers it or not: only the first response counts. */
  function AfterAnswer(op: Op, answered: bool, batch: Batch): Op {
    if answered && !op.hadResponse then Delivered(op, batch) else op
  }

  /** After `n` messages: the answered operations have the batch, their ids seen so far are gone. */
  ghost predicate HandledRight(w: World, batch: Batch, n: nat, p: Progress)
    requires n <= |batch| && |p.w.ops| == |w.ops|
  {
    && p.w.fault.None?
    && (forall k: nat {:trigger p.w.ops[k]} :: k < |w.ops| ==>
          p.w.ops[k] == AfterAnswer(w.ops[k], Answered(w, batch, n, k), batch))
    && (forall id :: id in p.w.wait <==> id in w.wait && !Seen(batch, n, id))
    && (forall id :: id in p.w.wait ==> p.w.wait[id] == w.wait[id])
    && (forall k: nat :: k in p.resolved <==> Answered(w, batch, n, k))
  }

  lemma {:induction false} HandledIsRight(w: World, batch: Batch, n: nat)
    requires WorldOk(w) && IndicesOk(w) && n <= |batch|
    ensures HandledRight(w, batch, n, Handled(w, batch, n))
  {
    if n > 0 {
      HandledIsRight(w, batch, n - 1);
      var p := Handled(w, batch, n - 1);
      var m := batch[n - 1];
      if IsResponse(m) && m.id.value in p.w.wait {
        RespondIsRight(w, batch, n, p);
      } else {
        NothingAnswered(w, batch, n, p);
      }
    }
  }

  lemma SeenStep(batch: Batch, n: nat, id: string)
    requires 0 < n <= |batch|
    ensures Seen(batch, n, id) <==> Seen(batch, n - 1, id) || (IsResponse(batch[n - 1]) && batch[n - 1].id.value == id)
  {
    if IsResponse(batch[n - 1]) && batch[n - 1].id.value == id {
      assert Seen(batch, n, id);
    }
  }

  lemma AnsweredStep(w: World, batch: Batch, n: nat, k: nat)
    requires 0 < n <= |batch|
    ensures Answered(w, batch, n, k) <==>
            (Answered(w, batch, n - 1, k)
             || (IsResponse(batch[n - 1]) && batch[n - 1].id.value in w.wait && w.wait[batch[n - 1].id.value] == k))
  {
    var m := batch[n - 1];
    if IsResponse(m) && m.id.value in w.wait && w.wait[m.id.value] == k {
      assert Answered(w, batch, n, k);
    }
  }

  /** A message that is no response, or one to an id no longer in the table, answers nobody new. */
  lemma NothingAnswered(w: World, batch: Batch, n: nat, p: Progress)
    requires WorldOk(w) && 0 < n <= |batch| && |p.w.ops| == |w.ops| && HandledRight(w, batch, n - 1, p)
    requires var m := batch[n - 1]; !(IsResponse(m) && m.id.value in p.w.wait)
    requires ProgressOk(p)
    ensures HandledRight(w, batch, n, Handle(p, batch, batch[n - 1]))
  {
    forall id ensures (id in p.w.wait) <==> id in w.wait && !Seen(batch, n, id) {
      SeenStep(batch, n, id);
    }
    forall k: nat ensures Answered(w, batch, n, k) <==> Answered(w, batch, n - 1, k) {
      AnsweredStep(w, batch, n, k);
      SeenAnswers(w, batch, n, k);
    }
  }

  /** A response whose id was seen before was answered then. */
  lemma SeenAnswers(w: World, batch: Batch, n: nat, k: nat)
    requires 0 < n <= |batch|
    ensures var m := batch[n - 1];
            IsResponse(m) && m.id.value in w.wait && w.wait[m.id.value] == k && Seen(batch, n - 1, m.id.value)
            ==> Answered(w, batch, n - 1, k)
  {}

  lemma RespondIsRight(w: World, batch: Batch, n: nat, p: Progress)
    requires WorldOk(w) && 0 < n <= |batch| && |p.w.ops| == |w.ops| && HandledRight(w, batch, n - 1, p)
    requires IsResponse(batch[n - 1]) && batch[n - 1].id.value in p.w.wait && ProgressOk(p)
    ensures HandledRight(w, batch, n, Handle(p, batch, batch[n - 1]))
  {
    var id0 := batch[n - 1].id.value;
    var k0 := w.wait[id0];
    var q := Handle(p, batch, batch[n - 1]);
    assert EntryOk(w, id0) && OpOk(w.ops[k0]);
    assert p.w.ops[k0].closes == 0;
    forall id ensures id in q.w.wait <==> id in w.wait && !Seen(batch, n, id) {
      SeenStep(batch, n, id);
    }
    forall k: nat ensures Answered(w, batch, n, k) <==> Answered(w, batch, n - 1, k) || k == k0 {
      AnsweredStep(w, batch, n, k);
    }
    forall k: nat | k < |w.ops|
      ensures q.w.ops[k] == AfterAnswer(w.ops[k], Answered(w, batch, n, k), batch)
    {
      assert p.w.ops[k] == AfterAnswer(w.ops[k], Answered(w, batch, n - 1, k), batch);
    }
  }

  lemma {:induction false} DroppedHas(wait: map<string, nat>, ops: seq<Op>, resolved: seq<nat>, id: string)
    requires Known(resolved, |ops|)
    ensures id in Dropped(wait, ops, resolved) <==> id in wait && forall k :: k in resolved ==> id !in ops[k].ids
    ensures id in Dropped(wait, ops, resolved) ==> Dropped(wait, ops, resolved)[id] == wait[id]
  {
    if resolved != [] {
      var n := |resolved| - 1;
      DroppedHas(wait, ops, resolved[..n], id);
      assert resolved == resolved[..n] + [resolved[n]];
    }
  }

  /**
    `handleResponses`: every operation with a response in the batch gets the whole batch, once; no
    other operation is touched; no send panics or blocks; and exactly the ids of the answered
    operations leave the table.
   */
  lemma ResolveDelivers(w: World, batch: Batch)
    requires WorldOk(w) && IndicesOk(w)
    ensures var v := Resolve(w, batch);
            && v.fault.None?
            && |v.ops| == |w.ops|
            && (forall k: nat {:trigger v.ops[k]} :: k < |w.ops| ==>
                 v.ops[k] == AfterAnswer(w.ops[k], Answered(w, batch, |batch|, k), batch))
            && (forall id :: id in v.wait ==> id in w.wait && v.wait[id] == w.wait[id])
            && (forall id, k: nat ::
                  id in v.wait && k < |w.ops| && Answered(w, batch, |batch|, k) ==> id !in w.ops[k].ids)
            && (forall id :: id in w.wait && id !in v.wait ==>
                 exists k: nat :: k < |w.ops| && Answered(w, batch, |batch|, k) && id in w.ops[k].ids)
  {
    var n := |batch|;
    HandledIsRight(w, batch, n);
    var p := Handled(w, batch, n);
    var v := Resolve(w, batch);
    forall k: nat | k < |w.ops| ensures p.w.ops[k].ids == w.ops[k].ids {
      assert p.w.ops[k] == AfterAnswer(w.ops[k], Answered(w, batch, n, k), batch);
    }
    forall id ensures id in v.wait <==> id in p.w.wait && forall k :: k in p.resolved ==> id !in p.w.ops[k].ids
      ensures id in v.wait ==> v.wait[id] == p.w.wait[id]
    {
      DroppedHas(p.w.wait, p.w.ops, p.resolved, id);
    }
    forall id | id in w.wait && id !in v.wait
      ensures exists k: nat :: k < |w.ops| && Answered(w, batch, n, k) && id in w.ops[k].ids
    {
      LeavesWithItsOp(w, batch, p, id);
    }
  }

  lemma LeavesWithItsOp(w: World, batch: Batch, p: Progress, id: string)
    requires WorldOk(w) && |p.w.ops| == |w.ops| && HandledRight(w, batch, |batch|, p) && ProgressOk(p)
    requires forall k: nat :: k < |w.ops| ==> p.w.ops[k].ids == w.ops[k].ids
    requires id in w.wait && !(id in p.w.wait && forall k :: k in p.resolved ==> id !in p.w.ops[k].ids)
    ensures exists k: nat :: k < |w.ops| && Answered(w, batch, |batch|, k) && id in w.ops[k].ids
  {
    if id in p.w.wait {
      var k :| k in p.resolved && id in p.w.ops[k].ids;
      assert Answered(w, batch, |batch|, k);
    } else {
      assert EntryOk(w, id);
      assert Answered(w, batch, |batch|, w.wait[id]);
    }
  }

  lemma ResolveKeepsOk(w: World, batch: Batch)
    requires WorldOk(w) && IndicesOk(w)
    ensures WorldOk(Resolve(w, batch))
  {
    ResolveDelivers(w, batch);
    var v := Resolve(w, batch);
    forall k: nat | k < |v.ops| ensures OpOk(v.ops[k]) {
      assert OpOk(w.ops[k]);
      if Answered(w, batch, |batch|, k) {
        var i :| && 0 <= i < |batch| && IsResponse(batch[i]) && batch[i].id.value in w.wait
                 && w.wait[batch[i].id.value] == k;
        assert EntryOk(w, batch[i].id.value);
        assert AnswersIds(batch, w.ops[k].ids);
      }
    }
    forall id | id in v.wait ensures EntryOk(v, id) {
      assert EntryOk(w, id);
      assert v.ops[v.wait[id]].closes == w.ops[v.wait[id]].closes;
    }
  }

  lemma CancelledKeepsOk(w: World, inflight: Option<nat>)
    requires WorldOk(w)
    ensures WorldOk(Cancelled(w, inflight))
  {
    var v := Cancelled(w, inflight);
    forall k: nat | k < |v.ops| ensures OpOk(v.ops[k]) {
      assert OpOk(w.ops[k]);
      if k in w.wait.Values {
        var id :| id in w.wait && w.wait[id] == k;
        assert EntryOk(w, id);
      }
    }
  }
}
