/**
  Notification order in the RPC package (`subscription.go`): the server's Notifier, which buffers until the
  subscription id has been sent, and the client's forwarding loop with its bounded buffer.
 */
module Notifications {
  import opened Options

  type Id = string
  type Data = nat

  /** One attempted write of a notification to the connection. */
  datatype Attempt = Attempt(data: Data, ok: bool)

  /** A Notifier, with the history of Notify calls it accepted and of the writes it attempted. */
  datatype Record = Record(
    sub: Option<Id>,
    buffer: seq<Data>,
    callReturned: bool,
    activated: bool,
    activateCalled: bool,
    notified: seq<Data>,
    log: seq<Attempt>)

  datatype Misuse = SecondSubscription | SubscriptionAfterReturn | NotifyBeforeSubscription | WrongId

  const NEW_RECORD: Record := Record(None, [], false, false, false, [], [])

  function Datas(log: seq<Attempt>): seq<Data> {
    seq(|log|, i requires 0 <= i < |log| => log[i].data)
  }

  /** The attempts of `activate` when the write of entry `failedAt` fails, or none does. */
  function Flush(buffer: seq<Data>, failedAt: Option<nat>): (log: seq<Attempt>)
    requires failedAt.Some? ==> failedAt.value < |buffer|
    ensures |log| <= |buffer| && Datas(log) == buffer[..|log|]
  {
    if failedAt.None? then seq(|buffer|, i requires 0 <= i < |buffer| => Attempt(buffer[i], true))
    else seq(failedAt.value + 1, i requires 0 <= i < |buffer| => Attempt(buffer[i], i < failedAt.value))
  }

  function Create(r: Record, id: Id): Result<Record, Misuse> {
    if r.sub.Some? then Err(SecondSubscription)
    else if r.callReturned then Err(SubscriptionAfterReturn)
    else Ok(r.(sub := Some(id)))
  }

  function Notify(r: Record, id: Id, data: Data, ok: bool): Result<Record, Misuse> {
    if r.sub.None? then Err(NotifyBeforeSubscription)
    else if r.sub.value != id then Err(WrongId)
    else if r.activated then Ok(r.(notified := r.notified + [data], log := r.log + [Attempt(data, ok)]))
    else Ok(r.(notified := r.notified + [data], buffer := r.buffer + [data]))
  }

  function Activate(r: Record, failedAt: Option<nat>): Record
    requires failedAt.Some? ==> failedAt.value < |r.buffer|
  {
    r.(activateCalled := true, activated := r.activated || failedAt.None?, log := r.log + Flush(r.buffer, failedAt))
  }

  class Notifier {
    var sub: Option<Id>
    var buffer: seq<Data>
    var callReturned: bool
    var activated: bool
    var log: seq<Attempt>
    ghost var activateCalled: bool
    ghost var notified: seq<Data>

    ghost function View(): Record
      reads this
    {
      Record(sub, buffer, callReturned, activated, activateCalled, notified, log)
    }

    constructor ()
      ensures View() == NEW_RECORD
    {
      sub, buffer, callReturned, activated, log := None, [], false, false, [];
      activateCalled, notified := false, [];
    }

    /** Err stands for the panics of `CreateSubscription`. */
    method CreateSubscription(id: Id) returns (r: Result<Id, Misuse>)
      modifies this
      ensures r.Ok? <==> Create(old(View()), id).Ok?
      ensures r.Ok? ==> r.value == id && View() == Create(old(View()), id).value
      ensures r.Err? ==> View() == old(View()) && r.error == Create(old(View()), id).error
    {
      if sub.Some? {
        return Err(SecondSubscription);
      } else if callReturned {
        return Err(SubscriptionAfterReturn);
      }
      sub := Some(id);
      return Ok(id);
    }

    /** `ok` is the outcome of the write, if one is made. */
    method NotifyClient(id: Id, data: Data, ok: bool) returns (r: Result<bool, Misuse>)
      modifies this
      ensures r.Ok? <==> Notify(old(View()), id, data, ok).Ok?
      ensures r.Ok? ==> View() == Notify(old(View()), id, data, ok).value && r.value == (ok || !activated)
      ensures r.Err? ==> View() == old(View()) && r.error == Notify(old(View()), id, data, ok).error
    {
      if sub.None? {
        return Err(NotifyBeforeSubscription);
      } else if sub.value != id {
        return Err(WrongId);
      }
      notified := notified + [data];
      if activated {
        log := log + [Attempt(data, ok)];
        return Ok(ok);
      }
      buffer := buffer + [data];
      return Ok(true);
    }

    method TakeSubscription() returns (s: Option<Id>)
      modifies this
      ensures View() == old(View()).(callReturned := true) && s == sub
    {
      callReturned := true;
      s := sub;
    }

    /** Any write may fail; the first failure ends the activation. */
    method ActivateNotifier() returns (failedAt: Option<nat>)
      modifies this
      ensures failedAt.Some? ==> failedAt.value < |old(buffer)|
      ensures View() == Activate(old(View()), failedAt)
    {
      activateCalled := true;
      failedAt := None;
      for i := 0 to |buffer|
        invariant buffer == old(buffer) && failedAt == None
        invariant View() == old(View()).(activateCalled := true, log := old(log) + Flush(buffer[..i], None))
      {
        var ok: bool := *;
        assert Flush(buffer[..i + 1], None) == Flush(buffer[..i], None) + [Attempt(buffer[i], true)];
        if !ok {
          assert Flush(buffer, Some(i)) == Flush(buffer[..i], None) + [Attempt(buffer[i], false)];
          log := log + [Attempt(buffer[i], false)];
          return Some(i);
        }
        log := log + [Attempt(buffer[i], true)];
      }
      assert buffer[..|buffer|] == buffer;
      activated := true;
    }
  }

  datatype Event =
    | CreateEvent(id: Id)
    | NotifyEvent(id: Id, data: Data, ok: bool)
    | TakeEvent
    | ActivateEvent(failedAt: Option<nat>)

  /** A run of one notifier; a misuse panics and ends it. Its handler activates it once. */
  function Run(events: seq<Event>): Option<Record> {
    if events == [] then Some(NEW_RECORD)
    else
      match Run(events[..|events| - 1])
      case None => None
      case Some(r) => Step(r, events[|events| - 1])
  }

  function Step(r: Record, e: Event): Option<Record> {
    match e
    case CreateEvent(id) => if Create(r, id).Ok? then Some(Create(r, id).value) else None
    case NotifyEvent(id, data, ok) => if Notify(r, id, data, ok).Ok? then Some(Notify(r, id, data, ok).value) else None
    case TakeEvent => Some(r.(callReturned := true))
    case ActivateEvent(failedAt) =>
      if r.activateCalled || (failedAt.Some? && failedAt.value >= |r.buffer|) then None else Some(Activate(r, failedAt))
  }

  /** Nothing before activation; afterwards the attempts follow the Notify calls. */
  predicate InOrder(r: Record) {
    && (!r.activateCalled ==> r.log == [] && !r.activated)
    && (!r.activated ==> r.buffer == r.notified && Datas(r.log) <= r.notified)
    && (r.activated ==> Datas(r.log) == r.notified)
  }

  lemma DatasAppend(a: seq<Attempt>, b: seq<Attempt>)
    ensures Datas(a + b) == Datas(a) + Datas(b)
  {}

  lemma StepKeepsOrder(r: Record, e: Event)
    requires InOrder(r) && Step(r, e).Some?
    ensures InOrder(Step(r, e).value)
  {
    match e
    case NotifyEvent(_, data, ok) =>
      DatasAppend(r.log, [Attempt(data, ok)]);
      assert (r.notified + [data])[..|r.log|] == r.notified[..|r.log|] || r.activated;
    case ActivateEvent(failedAt) =>
      var log := Flush(r.buffer, failedAt);
      assert r.log + log == log;
      assert failedAt.None? ==> r.buffer[..|log|] == r.buffer;
    case _ =>
  }

  lemma {:induction false} RunInOrder(events: seq<Event>)
    ensures Run(events).Some? ==> InOrder(Run(events).value)
  {
    if events != [] {
      var n := |events| - 1;
      RunInOrder(events[..n]);
      if Run(events).Some? {
        StepKeepsOrder(Run(events[..n]).value, events[n]);
      }
    }
  }

  /** Over every run: no write before activation, and the attempts are the Notify calls in order. */
  lemma AttemptsFollowNotify(events: seq<Event>)
    requires Run(events).Some?
    ensures var r := Run(events).value;
            && Datas(r.log) <= r.notified
            && (!r.activateCalled ==> r.log == [])
            && (r.activated ==> Datas(r.log) == r.notified)
  {
    RunInOrder(events);
  }

  /** The notifications that reached the connection. */
  function Delivered(log: seq<Attempt>): seq<Data> {
    if log == [] then []
    else
      var n := |log| - 1;
      if log[n].ok then Delivered(log[..n]) + [log[n].data] else Delivered(log[..n])
  }

  /** A connection that fails stays failed. */
  predicate FailsForGood(log: seq<Attempt>) {
    forall i, j :: 0 <= i < j < |log| && log[j].ok ==> log[i].ok
  }

  lemma {:induction false} DeliveredPrefix(log: seq<Attempt>)
    requires FailsForGood(log)
    ensures Delivered(log) <= Datas(log)
    ensures |log| > 0 && log[|log| - 1].ok ==> Delivered(log) == Datas(log)
  {
    if log != [] {
      var n := |log| - 1;
      DeliveredPrefix(log[..n]);
      assert log == log[..n] + [log[n]];
      DatasAppend(log[..n], [log[n]]);
      if log[n].ok && n > 0 {
        assert log[n - 1].ok;
        assert log[..n][n - 1].ok;
      }
    }
  }

  lemma {:induction false} DeliveredShort(log: seq<Attempt>, i: nat)
    ensures |Delivered(log)| <= |log|
    ensures i < |log| && !log[i].ok ==> |Delivered(log)| < |log|
  {
    if log != [] {
      DeliveredShort(log[..|log| - 1], i);
    }
  }

  lemma {:induction false} DeliveredGrows(log: seq<Attempt>, n: nat)
    requires n <= |log|
    ensures Delivered(log[..n]) <= Delivered(log)
  {
    if n == |log| {
      assert log[..n] == log;
    } else {
      var m := |log| - 1;
      DeliveredGrows(log[..m], n);
      assert log[..m][..n] == log[..n];
    }
  }

  /** A write that succeeds after a failed one puts its notification too early. */
  lemma GapShifts(log: seq<Attempt>, i: nat, j: nat) returns (p: nat)
    requires i < j < |log| && !log[i].ok && log[j].ok
    ensures p < j && p < |Delivered(log)| && Delivered(log)[p] == log[j].data
  {
    var upTo := log[..j + 1];
    assert upTo[..j] == log[..j];
    DeliveredShort(log[..j], i);
    p := |Delivered(log[..j])|;
    assert Delivered(upTo)[p] == log[j].data;
    DeliveredGrows(log, j + 1);
  }

  predicate AllDifferent(ds: seq<Data>) {
    forall i, j {:trigger ds[i], ds[j]} :: 0 <= i < j < |ds| ==> ds[i] != ds[j]
  }

  /**
    What the client gets is a prefix of the Notify calls when the connection does not recover
    from a failed write; with distinct notifications, exactly then.
   */
  lemma DeliveredFollowsNotify(events: seq<Event>)
    requires Run(events).Some?
    ensures var r := Run(events).value;
            && (FailsForGood(r.log) ==> Delivered(r.log) <= r.notified)
            && (AllDifferent(r.notified) && Delivered(r.log) <= r.notified ==> FailsForGood(r.log))
  {
    RunInOrder(events);
    var r := Run(events).value;
    if FailsForGood(r.log) {
      DeliveredPrefix(r.log);
    }
    if AllDifferent(r.notified) && Delivered(r.log) <= r.notified {
      forall i: nat, j: nat | i < j < |r.log| && r.log[j].ok ensures r.log[i].ok {
        NoGap(r, i, j);
      }
    }
  }

  lemma NoGap(r: Record, i: nat, j: nat)
    requires InOrder(r) && AllDifferent(r.notified) && Delivered(r.log) <= r.notified
    requires i < j < |r.log| && r.log[j].ok
    ensures r.log[i].ok
  {
    assert |r.log| <= |r.notified| && Datas(r.log)[j] == r.notified[j];
    if !r.log[i].ok {
      var p := GapShifts(r.log, i, j);
    }
  }

  /** Without that a notification can be missing in the middle: nothing stops writes after a failed one. */
  lemma FailedWriteLeavesAGap(id: Id)
    ensures var events := [CreateEvent(id), ActivateEvent(None), NotifyEvent(id, 1, false), NotifyEvent(id, 2, true)];
            && Run(events).Some?
            && Run(events).value.notified == [1, 2]
            && Delivered(Run(events).value.log) == [2]
  {
    var e: seq<Event> := [CreateEvent(id), ActivateEvent(None), NotifyEvent(id, 1, false), NotifyEvent(id, 2, true)];
    var r1 := NEW_RECORD.(sub := Some(id));
    var r2 := Activate(r1, None);
    var r3 := Notify(r2, id, 1, false).value;
    var r4 := Notify(r3, id, 2, true).value;
    assert r4.notified == [1, 2] && r4.log == [Attempt(1, false), Attempt(2, true)];
    assert e[..0] == [] && e[..4] == e;
    Extend(e, 0, NEW_RECORD, r1);
    Extend(e, 1, r1, r2);
    Extend(e, 2, r2, r3);
    Extend(e, 3, r3, r4);
    assert r4.log[..1] == [Attempt(1, false)] && r4.log[..1][..0] == [];
    assert Delivered(r4.log[..1]) == [];
  }

  lemma Extend(e: seq<Event>, n: nat, r: Record, t: Record)
    requires n < |e| && Run(e[..n]) == Some(r) && Step(r, e[n]) == Some(t)
    ensures Run(e[..n + 1]) == Some(t)
  {
    assert e[..n + 1][..n] == e[..n];
  }
}
