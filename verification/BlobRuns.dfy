/**
  What every run of blob senders and waiters keeps: nil means persisted, no notification is lost, no send
  blocks, and no waiter is stuck once everything it needs has been stored.
 */
module BlobRuns {
  import opened Options
  import opened BlobNotifier
  import opened BlobAvailability

  /** The state after a run, or None when some event of it was not possible. */
  function Run(events: seq<Event>): Option<State> {
    if events == [] then Some(INITIAL)
    else
      match Run(events[..|events| - 1])
      case None => None
      case Some(s) => if Enabled(s, events[|events| - 1]) then Some(Next(s, events[|events| - 1])) else None
  }

  lemma {:induction false} RunKeepsInv(events: seq<Event>)
    ensures Run(events).Some? ==> Inv(Run(events).value)
  {
    if events != [] {
      var n := |events| - 1;
      RunKeepsInv(events[..n]);
      if Run(events).Some? {
        StepKeepsInv(Run(events[..n]).value, events[n]);
      }
    }
  }

  /** A nil result means every committed index has been persisted. */
  lemma NilMeansPersisted(events: seq<Event>, r: Root, i: nat)
    requires Run(events).Some?
    ensures var s := Run(events).value;
            r in s.waiters && s.waiters[r].Returned? && s.waiters[r].ok && i in s.waiters[r].need ==> (r, i) in s.stored
  {
    RunKeepsInv(events);
    var s := Run(events).value;
    if r in s.waiters {
      assert WaiterOk(s, r);
    }
  }

  /** An index a waiter still misses although it has been persisted has its notification on the way. */
  lemma NoLostNotification(events: seq<Event>, r: Root, i: nat)
    requires Run(events).Some?
    ensures var s := Run(events).value;
            (&& r in s.waiters && (s.waiters[r].Checked? || s.waiters[r].Waiting?)
             && i in s.waiters[r].missing && (r, i) in s.stored) ==> InTransit(s, r, i)
  {
    RunKeepsInv(events);
    var s := Run(events).value;
    if r in s.waiters {
      assert WaiterOk(s, r);
    }
  }

  /** The send outside the lock never blocks, and no channel carries an index twice over its life. */
  lemma NotifyNeverBlocks(events: seq<Event>)
    requires Run(events).Some?
    ensures var s := Run(events).value;
            && (forall k {:trigger s.senders[k]} ::
                  0 <= k < |s.senders| && s.senders[k].phase.Sending? ==> Enabled(s, Send(k)))
            && (forall c {:trigger s.chans[c]} :: 0 <= c < |s.chans| ==>
                  Distinct(s.chans[c].history) && |s.chans[c].history| <= MAX_BLOBS_PER_BLOCK)
  {
    RunKeepsInv(events);
    var s := Run(events).value;
    forall k | 0 <= k < |s.senders| && s.senders[k].phase.Sending? ensures Enabled(s, Send(k)) {
      SendHasRoom(s, k);
    }
    forall c | 0 <= c < |s.chans|
      ensures Distinct(s.chans[c].history) && |s.chans[c].history| <= MAX_BLOBS_PER_BLOCK
    {
      assert ChanOk(s, c);
      forall i | i in s.chans[c].history ensures i in Below(MAX_BLOBS_PER_BLOCK) {
        assert Legit(s, s.chans[c].root, i);
      }
      DistinctBound(s.chans[c].history, Below(MAX_BLOBS_PER_BLOCK));
    }
  }

  /** A step that brings a waiter closer: of a ReceiveBlob call of this root, or a receive. */
  predicate Helps(s: State, r: Root, e: Event)
    requires IsWaiting(s, r)
  {
    || e == Receive(r)
    || (&& (e.Notify? || e.Send?) && e.k < |s.senders|
        && s.senders[e.k].root == r && s.senders[e.k].idx in s.waiters[r].missing
        && (e.Send? ==> s.senders[e.k].phase == Sending(s.waiters[r].c)))
  }

  lemma HelpfulStep(s: State, r: Root) returns (e: Event)
    requires Inv(s) && r in s.waiters && s.waiters[r].Waiting? && AllStored(s, r, s.waiters[r].need)
    ensures IsWaiting(s, r) && Helps(s, r, e) && Enabled(s, e)
  {
    assert WaiterOk(s, r) && RootOk(s, r);
    var i :| i in s.waiters[r].missing;
    assert (r, i) in s.stored;
    assert InTransit(s, r, i);
    if i !in EntryOf(s, r).seen {
      var k: nat :| SavedAt(s, k, r, i);
      e := Notify(k);
    } else if Unread(s, s.waiters[r].c, i) {
      e := Receive(r);
    } else {
      var k: nat :| SendingAt(s, k, r, i, s.waiters[r].c);
      SendHasRoom(s, k);
      e := Send(k);
    }
  }

  /**
    No lost wake-up: once everything a waiter needs has been persisted, a notification can be
    received, or a ReceiveBlob call of this root can take the step that brings it closer.
   */
  lemma WaiterIsNotStuck(events: seq<Event>, s: State, r: Root) returns (e: Event)
    requires Run(events) == Some(s) && r in s.waiters && s.waiters[r].Waiting? && AllStored(s, r, s.waiters[r].need)
    ensures IsWaiting(s, r) && Helps(s, r, e) && Enabled(s, e)
  {
    RunKeepsInv(events);
    e := HelpfulStep(s, r);
  }
}
