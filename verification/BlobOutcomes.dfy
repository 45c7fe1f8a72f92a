/**
  What a data-availability check answers. Over every run of blob senders and waiters, the state of a waiter is
  told from the events since its check; and a waiter whose blobs have all been persisted can return nil.
 */
module BlobOutcomes {
  import opened Options
  import opened BlobNotifier
  import opened BlobAvailability
  import opened BlobRuns

  predicate StepsAt(events: seq<Event>, st: seq<State>, i: int)
    requires 0 <= i < |events| == |st| - 1
  {
    Enabled(st[i], events[i]) && st[i + 1] == Next(st[i], events[i])
  }

  /** A run with all its states: `st[i]` is the state before event `i`. */
  predicate IsTrace(events: seq<Event>, st: seq<State>) {
    && |st| == |events| + 1
    && st[0] == INITIAL
    && forall i {:trigger StepsAt(events, st, i)} :: 0 <= i < |events| ==> StepsAt(events, st, i)
  }

  lemma {:induction false} TraceIsRun(events: seq<Event>, st: seq<State>, n: nat)
    requires IsTrace(events, st) && n <= |events|
    ensures Run(events[..n]) == Some(st[n])
  {
    if n > 0 {
      TraceIsRun(events, st, n - 1);
      assert StepsAt(events, st, n - 1);
      assert events[..n][..n - 1] == events[..n - 1];
    }
  }

  predicate IsAt(events: seq<Event>, i: int, e: Event)
    requires 0 <= i < |events|
  {
    events[i] == e
  }

  /** Event `e` is one of those from `a` to before `n`. */
  predicate Happened(events: seq<Event>, a: nat, n: nat, e: Event)
    requires n <= |events|
  {
    exists i {:trigger IsAt(events, i, e)} :: a <= i < n && IsAt(events, i, e)
  }

  lemma HappenedStep(events: seq<Event>, a: nat, n: nat, e: Event)
    requires a <= n < |events|
    ensures Happened(events, a, n + 1, e) <==> Happened(events, a, n, e) || events[n] == e
  {
    if events[n] == e {
      assert IsAt(events, n, e);
    }
  }

  /** A blob is persisted exactly when a save of it has happened. */
  lemma {:induction false} StoredIsSaved(events: seq<Event>, st: seq<State>, n: nat, r: Root, i: nat)
    requires IsTrace(events, st) && n <= |events|
    ensures (r, i) in st[n].stored <==> Happened(events, 0, n, Save(r, i))
  {
    if n > 0 {
      StoredIsSaved(events, st, n - 1, r, i);
      assert StepsAt(events, st, n - 1);
      HappenedStep(events, 0, n - 1, Save(r, i));
    }
  }

  // One check.

  predicate ChecksAt(events: seq<Event>, i: int, r: Root)
    requires 0 <= i < |events|
  {
    events[i].Check? && events[i].root == r
  }

  /** Event `a` is the last check of root `r` before event `n`. */
  predicate LastCheck(events: seq<Event>, a: nat, n: nat, r: Root) {
    && a < n <= |events| && ChecksAt(events, a, r)
    && forall i {:trigger ChecksAt(events, i, r)} :: a < i < n ==> !ChecksAt(events, i, r)
  }

  /** The waiter of root `r` receives index `x` in event `i`. */
  predicate ReceivesAt(events: seq<Event>, st: seq<State>, i: int, r: Root, x: nat)
    requires 0 <= i < |events| == |st| - 1
  {
    && events[i] == Receive(r) && IsWaiting(st[i], r) && HasUnread(st[i].chans[st[i].waiters[r].c])
    && var ch := st[i].chans[st[i].waiters[r].c]; ch.history[ch.read] == x
  }

  predicate Received(events: seq<Event>, st: seq<State>, a: nat, n: nat, r: Root, x: nat)
    requires n <= |events| == |st| - 1
  {
    exists i {:trigger ReceivesAt(events, st, i, r, x)} :: a < i < n && ReceivesAt(events, st, i, r, x)
  }

  lemma ReceivedStep(events: seq<Event>, st: seq<State>, a: nat, n: nat, r: Root, x: nat)
    requires a < n < |events| == |st| - 1
    ensures Received(events, st, a, n + 1, r, x) <==>
              Received(events, st, a, n, r, x) || ReceivesAt(events, st, n, r, x)
  {
    if ReceivesAt(events, st, n, r, x) {
      assert Received(events, st, a, n + 1, r, x);
    }
  }

  /** Index `x` has a commitment in the block checked at event `a`. */
  predicate Committed(events: seq<Event>, a: nat, x: nat)
    requires a < |events| && events[a].Check?
  {
    x < |events[a].expected| && events[a].expected[x] != []
  }

  /** Index `x` is committed to, was not persisted at the check, and has not been received since. */
  predicate Outstanding(events: seq<Event>, st: seq<State>, a: nat, n: nat, r: Root, x: nat)
    requires a < n <= |events| == |st| - 1 && events[a].Check?
  {
    Committed(events, a, x) && (r, x) !in st[a].stored && !Received(events, st, a, n, r, x)
  }

  ghost predicate Needs(need: set<nat>, events: seq<Event>, a: nat)
    requires a < |events| && events[a].Check?
  {
    forall x: nat {:trigger x in need} :: x in need <==> Committed(events, a, x)
  }

  ghost predicate Misses(missing: set<nat>, events: seq<Event>, st: seq<State>, a: nat, n: nat, r: Root)
    requires a < n <= |events| == |st| - 1 && events[a].Check?
  {
    forall x: nat {:trigger x in missing} :: x in missing <==> Outstanding(events, st, a, n, r, x)
  }

  /** All committed indices were persisted at the check. */
  ghost predicate AllThere(events: seq<Event>, st: seq<State>, a: nat, r: Root)
    requires a < |events| == |st| - 1 && events[a].Check?
  {
    forall x: nat {:trigger Committed(events, a, x)} :: Committed(events, a, x) ==> (r, x) in st[a].stored
  }

  /** What the waiter of root `r` is, from the events since its check at `a`. */
  ghost predicate IsOutcome(w: Waiter, events: seq<Event>, st: seq<State>, a: nat, n: nat, r: Root)
    requires a < n <= |events| == |st| - 1 && events[a].Check?
  {
    && Needs(w.need, events, a)
    && if |events[a].expected| > 6 then w == Returned(w.need, false)
       else if AllThere(events, st, a, r) then w == Returned(w.need, true)
       else if Happened(events, a, n, Abort(r)) then w == Returned(w.need, false)
       else if Happened(events, a, n, Delete(r)) then w == Returned(w.need, true)
       else match w
         case Checked(_, missing) =>
           missing != {} && Misses(missing, events, st, a, n, r) && !Happened(events, a, n, ForRoot(r))
         case Waiting(_, missing, _) =>
           missing != {} && Misses(missing, events, st, a, n, r) && Happened(events, a, n, ForRoot(r))
         case Deleting(_) => Misses({}, events, st, a, n, r)
         case Returned(_, _) => false
  }

  lemma CheckStep(events: seq<Event>, st: seq<State>, a: nat, r: Root)
    requires IsTrace(events, st) && a < |events| && ChecksAt(events, a, r)
    ensures r in st[a + 1].waiters && IsOutcome(st[a + 1].waiters[r], events, st, a, a + 1, r)
  {
    assert StepsAt(events, st, a);
    var s, expected := st[a], events[a].expected;
    var w := AfterCheck(s, r, expected);
    forall x: nat ensures x in w.need <==> Committed(events, a, x) {}
    if |expected| <= 6 {
      var missing := Unstored(s, r, w.need);
      forall x: nat ensures x in missing <==> Committed(events, a, x) && (r, x) !in s.stored {}
      if AllThere(events, st, a, r) {
        assert missing == {};
      } else {
        var x: nat :| Committed(events, a, x) && (r, x) !in s.stored;
        assert x in missing;
        assert Misses(missing, events, st, a, a + 1, r);
      }
    }
  }

  /** An event of the waiter of root `r`, or of another root or a sender. */
  predicate IsOwn(e: Event, r: Root) {
    e == ForRoot(r) || e == Receive(r) || e == Delete(r) || e == Abort(r) || (e.Check? && e.root == r)
  }

  lemma OthersLeaveIt(s: State, e: Event, r: Root)
    requires Enabled(s, e) && !IsOwn(e, r) && r in s.waiters
    ensures r in Next(s, e).waiters && Next(s, e).waiters[r] == s.waiters[r]
  {}

  /** The outcome so far and one more event of the waiter. */
  lemma OwnStep(events: seq<Event>, st: seq<State>, a: nat, m: nat, r: Root)
    requires IsTrace(events, st) && a < m < |events| && events[a].Check?
    requires r in st[m].waiters && IsOutcome(st[m].waiters[r], events, st, a, m, r)
    requires IsOwn(events[m], r) && !events[m].Check? && !events[m].Receive?
    ensures r in st[m + 1].waiters && IsOutcome(st[m + 1].waiters[r], events, st, a, m + 1, r)
  {
    assert StepsAt(events, st, m);
    HappenedSteps(events, a, m, r);
    forall x: nat ensures Outstanding(events, st, a, m + 1, r, x) <==> Outstanding(events, st, a, m, r, x) {
      ReceivedStep(events, st, a, m, r, x);
    }
  }

  lemma HappenedSteps(events: seq<Event>, a: nat, m: nat, r: Root)
    requires a <= m < |events|
    ensures Happened(events, a, m + 1, Abort(r)) <==> Happened(events, a, m, Abort(r)) || events[m] == Abort(r)
    ensures Happened(events, a, m + 1, Delete(r)) <==> Happened(events, a, m, Delete(r)) || events[m] == Delete(r)
    ensures Happened(events, a, m + 1, ForRoot(r)) <==> Happened(events, a, m, ForRoot(r)) || events[m] == ForRoot(r)
  {
    HappenedStep(events, a, m, Abort(r));
    HappenedStep(events, a, m, Delete(r));
    HappenedStep(events, a, m, ForRoot(r));
  }

  lemma ReceiveStep(events: seq<Event>, st: seq<State>, a: nat, m: nat, r: Root)
    requires IsTrace(events, st) && a < m < |events| && events[a].Check? && events[m] == Receive(r)
    requires r in st[m].waiters && IsOutcome(st[m].waiters[r], events, st, a, m, r)
    ensures r in st[m + 1].waiters && IsOutcome(st[m + 1].waiters[r], events, st, a, m + 1, r)
  {
    assert StepsAt(events, st, m);
    HappenedSteps(events, a, m, r);
    var w := st[m].waiters[r];
    var ch := st[m].chans[w.c];
    var h := ch.history[ch.read];
    forall x: nat ensures Outstanding(events, st, a, m + 1, r, x) <==> Outstanding(events, st, a, m, r, x) && x != h {
      ReceivedStep(events, st, a, m, r, x);
    }
    assert Misses(w.missing - {h}, events, st, a, m + 1, r);
  }

  /**
    Over every run, what a check answers: an error for more than six commitments; nil at once when all committed
    indices are persisted; otherwise an error exactly when it was aborted, nil exactly when it went on to Delete,
    which it does exactly when each index not persisted at the check has been received.
   */
  lemma {:induction false} OutcomeFollows(events: seq<Event>, st: seq<State>, a: nat, n: nat, r: Root)
    requires IsTrace(events, st) && LastCheck(events, a, n, r)
    ensures r in st[n].waiters && IsOutcome(st[n].waiters[r], events, st, a, n, r)
    decreases n
  {
    var m := n - 1;
    if m == a {
      CheckStep(events, st, a, r);
    } else {
      OutcomeFollows(events, st, a, m, r);
      assert StepsAt(events, st, m) && !ChecksAt(events, m, r);
      if events[m] == Receive(r) {
        ReceiveStep(events, st, a, m, r);
      } else if IsOwn(events[m], r) {
        OwnStep(events, st, a, m, r);
      } else {
        OthersLeaveIt(st[m], events[m], r);
        HappenedSteps(events, a, m, r);
        forall x: nat ensures Outstanding(events, st, a, n, r, x) <==> Outstanding(events, st, a, m, r, x) {
          ReceivedStep(events, st, a, m, r, x);
        }
      }
    }
  }

  /** A nil answer means that every index the checked block commits to has been saved. */
  lemma NilMeansSaved(events: seq<Event>, st: seq<State>, a: nat, n: nat, r: Root, x: nat)
    requires IsTrace(events, st) && LastCheck(events, a, n, r) && Committed(events, a, x)
    requires r in st[n].waiters && st[n].waiters[r].Returned? && st[n].waiters[r].ok
    ensures Happened(events, 0, n, Save(r, x))
  {
    OutcomeFollows(events, st, a, n, r);
    TraceIsRun(events, st, n);
    NilMeansPersisted(events[..n], r, x);
    StoredIsSaved(events, st, n, r, x);
  }

  /** The error answers: exactly too many commitments, or an abort while something was missing. */
  lemma ErrorExactlyWhen(events: seq<Event>, st: seq<State>, a: nat, n: nat, r: Root)
    requires IsTrace(events, st) && LastCheck(events, a, n, r)
    ensures (exists need :: r in st[n].waiters && st[n].waiters[r] == Returned(need, false)) <==>
              |events[a].expected| > 6 || Happened(events, a, n, Abort(r))
  {
    OutcomeFollows(events, st, a, n, r);
    AbortNeedsWait(events, st, a, n, r);
    var w := st[n].waiters[r];
    assert w.Returned? ==> w == Returned(w.need, w.ok);
  }

  /** A check that has answered at once is never aborted. */
  lemma {:induction false} AbortNeedsWait(events: seq<Event>, st: seq<State>, a: nat, n: nat, r: Root)
    requires IsTrace(events, st) && LastCheck(events, a, n, r)
    ensures |events[a].expected| > 6 || AllThere(events, st, a, r) ==> !Happened(events, a, n, Abort(r))
    decreases n
  {
    var m := n - 1;
    HappenedStep(events, a, m, Abort(r));
    assert StepsAt(events, st, m);
    if m > a {
      AbortNeedsWait(events, st, a, m, r);
      OutcomeFollows(events, st, a, m, r);
    }
  }

  // Once everything is persisted, the waiter can return nil.

  function Weight(x: Sender): nat {
    match x.phase
    case Saved => 3
    case Sending(_) => 2
    case Done => 0
  }

  function Work(senders: seq<Sender>): nat {
    if senders == [] then 0 else Weight(senders[0]) + Work(senders[1..])
  }

  lemma {:induction false} WorkAt(senders: seq<Sender>, k: nat, x: Sender)
    requires k < |senders|
    ensures Work(senders[k := x]) == Work(senders) - Weight(senders[k]) + Weight(x)
  {
    if k == 0 {
      assert senders[k := x][1..] == senders[1..];
    } else {
      assert senders[k := x][1..] == senders[1..][k - 1 := x];
      WorkAt(senders[1..], k - 1, x);
    }
  }

  /** What senders and the waiter still have to do. */
  function Left(s: State, r: Root): int
    requires IsWaiting(s, r)
  {
    Work(s.senders) + |s.chans[s.waiters[r].c].history| - s.chans[s.waiters[r].c].read
  }

  /** A run from `s` to `t` in which nothing is saved and nobody checks or gives up. */
  predicate Leads(s: State, events: seq<Event>, t: State)
    decreases |events|
  {
    if events == [] then s == t
    else
      && Enabled(s, events[0]) && !events[0].Save? && !events[0].Check? && !events[0].Abort?
      && Leads(Next(s, events[0]), events[1..], t)
  }

  lemma HelpfulStepWorks(s: State, r: Root, e: Event)
    requires Inv(s) && IsWaiting(s, r) && Enabled(s, e) && Helps(s, r, e)
    ensures var t := Next(s, e);
            && t.stored == s.stored && r in t.waiters && t.waiters[r].need == s.waiters[r].need
            && (t.waiters[r].Deleting? || (IsWaiting(t, r) && 0 <= Left(t, r) < Left(s, r)))
  {
    var t, c := Next(s, e), s.waiters[r].c;
    assert ChanOk(s, c);
    StepKeepsInv(s, e);
    if !e.Receive? {
      assert ChanOk(t, c);
      WorkAt(s.senders, e.k, t.senders[e.k]);
    } else if t.waiters[r].Waiting? {
      assert ChanOk(t, c);
    }
  }

  /** A waiter on its channel, with everything it needs persisted. */
  lemma {:induction false} WaitEnds(s: State, r: Root) returns (events: seq<Event>, t: State)
    requires Inv(s) && IsWaiting(s, r) && AllStored(s, r, s.waiters[r].need)
    ensures Leads(s, events, t) && r in t.waiters && t.waiters[r] == Returned(s.waiters[r].need, true)
    decreases Left(s, r)
  {
    var e := HelpfulStep(s, r);
    HelpfulStepWorks(s, r, e);
    StepKeepsInv(s, e);
    var u := Next(s, e);
    var rest;
    if u.waiters[r].Deleting? {
      rest, t := [Delete(r)], Next(u, Delete(r));
      assert rest[1..] == [];
      assert Leads(t, [], t);
    } else {
      rest, t := WaitEnds(u, r);
    }
    events := [e] + rest;
    assert events[1..] == rest;
  }

  /**
    No waiter is left behind: in every reachable state, a check that waits although everything it needs has
    been persisted can go on to nil by steps already under way, whatever its senders have done so far.
   */
  lemma WaiterCanReturnNil(past: seq<Event>, s: State, r: Root) returns (events: seq<Event>, t: State)
    requires Run(past) == Some(s) && r in s.waiters && !s.waiters[r].Returned?
    requires AllStored(s, r, s.waiters[r].need)
    ensures Leads(s, events, t) && r in t.waiters && t.waiters[r] == Returned(s.waiters[r].need, true)
  {
    RunKeepsInv(past);
    match s.waiters[r]
    case Checked(need, _) =>
      var u := Next(s, ForRoot(r));
      StepKeepsInv(s, ForRoot(r));
      assert WaiterOk(u, r) && RootOk(u, r);
      var rest;
      rest, t := WaitEnds(u, r);
      events := [ForRoot(r)] + rest;
      assert events[1..] == rest;
    case Waiting(_, _, c) =>
      assert WaiterOk(s, r) && RootOk(s, r);
      events, t := WaitEnds(s, r);
    case Deleting(_) =>
      events, t := [Delete(r)], Next(s, Delete(r));
      assert events[1..] == [];
      assert Leads(t, [], t);
  }
}
