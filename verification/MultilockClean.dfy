/**
  Which keys a Clean takes out of the table: over every run of the multilock machine, given by the states
  `st` between its events.
 */
module MultilockClean {
  import opened Options
  import opened LockKeys
  import opened Multilock
  import opened MultilockRuns

  predicate StepsAt(events: seq<Event>, st: seq<State>, i: int)
    requires 0 <= i < |events| == |st| - 1
  {
    Enabled(st[i], events[i]) && st[i + 1] == Next(st[i], events[i])
  }

  /** A run with all its states: `st[i]` is the state before event `i`. */
  predicate IsTrace(events: seq<Event>, st: seq<State>) {
    && |st| == |events| + 1
    && st[0] == INITIAL
    && forall i {:trigger StepsAt(events, st, i)} :: 0 <= i < |events| ==> StepsAt(events, st, i)
  }

  /** The states of a run are reachable. */
  lemma {:induction false} TraceIsReachable(events: seq<Event>, st: seq<State>, n: nat)
    requires IsTrace(events, st) && n <= |events|
    ensures Reachable(events[..n], st[n])
  {
    if n > 0 {
      TraceIsReachable(events, st, n - 1);
      assert StepsAt(events, st, n - 1);
      assert events[..n][..n - 1] == events[..n - 1];
    }
  }

  lemma TraceInv(events: seq<Event>, st: seq<State>, n: nat) returns (pl: seq<Place>)
    requires IsTrace(events, st) && n <= |events|
    ensures Inv(st[n], pl)
  {
    TraceIsReachable(events, st, n);
    pl := ReachableInv(events[..n], st[n]);
  }

  // One Clean.

  predicate FinishesAt(events: seq<Event>, i: int)
    requires 0 <= i < |events|
  {
    events[i].FinishClean?
  }

  /** A Clean started at event `a` and has not finished before event `n`. */
  predicate CleaningSince(events: seq<Event>, a: nat, n: nat) {
    && a < n <= |events| && events[a].StartClean?
    && forall i {:trigger FinishesAt(events, i)} :: a < i < n ==> !FinishesAt(events, i)
  }

  predicate VisitsAt(events: seq<Event>, i: int, k: string)
    requires 0 <= i < |events|
  {
    events[i] == CleanKey(k)
  }

  /** Between the events `a` and `n`, the loop of Clean has come to key `k`. */
  predicate Visited(events: seq<Event>, a: nat, n: nat, k: string)
    requires n <= |events|
  {
    exists i {:trigger VisitsAt(events, i, k)} :: a < i < n && VisitsAt(events, i, k)
  }

  /** The key's current channel has its token in it. */
  predicate HasToken(s: State, k: string) {
    k in s.table && s.table[k] < |s.chans| && s.chans[s.table[k]].token
  }

  predicate TakesAt(events: seq<Event>, st: seq<State>, i: int, k: string)
    requires 0 <= i < |events| == |st| - 1
  {
    VisitsAt(events, i, k) && HasToken(st[i], k)
  }

  /** Clean came to key `k` when its channel had its token in it. */
  predicate Taken(events: seq<Event>, st: seq<State>, a: nat, n: nat, k: string)
    requires n <= |events| == |st| - 1
  {
    exists i {:trigger TakesAt(events, st, i, k)} :: a < i < n && TakesAt(events, st, i, k)
  }

  lemma VisitStep(events: seq<Event>, a: nat, n: nat, k: string)
    requires a < n < |events|
    ensures Visited(events, a, n + 1, k) <==> Visited(events, a, n, k) || VisitsAt(events, n, k)
  {
    if VisitsAt(events, n, k) {
      assert Visited(events, a, n + 1, k);
    }
  }

  lemma TakenStep(events: seq<Event>, st: seq<State>, a: nat, n: nat, k: string)
    requires a < n < |events| == |st| - 1
    ensures Taken(events, st, a, n + 1, k) <==> Taken(events, st, a, n, k) || TakesAt(events, st, n, k)
  {
    if TakesAt(events, st, n, k) {
      assert Taken(events, st, a, n + 1, k);
    }
  }

  /** What Clean still has to do and what it has collected. */
  predicate Tracks(s0: State, s: State, k: string, visited: bool, taken: bool) {
    && s.cleaner.Some? && s.table == s0.table
    && (k in s.cleaner.value.todo <==> k in s0.table && !visited)
    && (k in s.cleaner.value.toDelete || s.cleaner.value.drained == Some(k) <==> taken)
  }

  lemma {:induction false} CleanTracks(events: seq<Event>, st: seq<State>, a: nat, n: nat, k: string)
    requires IsTrace(events, st) && CleaningSince(events, a, n)
    ensures Tracks(st[a], st[n], k, Visited(events, a, n, k), Taken(events, st, a, n, k))
    decreases n
  {
    var m := n - 1;
    assert StepsAt(events, st, m);
    if m > a {
      CleanTracks(events, st, a, m, k);
      VisitStep(events, a, m, k);
      TakenStep(events, st, a, m, k);
      assert !FinishesAt(events, m);
      var pl := TraceInv(events, st, m);
      TrackStep(st[m], pl, events[m], k);
    }
  }

  /** One step while a Clean is in progress. */
  lemma TrackStep(s: State, pl: seq<Place>, e: Event, k: string)
    requires Inv(s, pl) && Enabled(s, e) && s.cleaner.Some? && !e.FinishClean?
    ensures var t, cl := Next(s, e), s.cleaner.value;
            && t.cleaner.Some? && t.table == s.table
            && var cl' := t.cleaner.value;
               && (k in cl'.todo <==> k in cl.todo && e != CleanKey(k))
               && (k in cl'.toDelete || cl'.drained == Some(k) <==>
                     k in cl.toDelete || cl.drained == Some(k) || (e == CleanKey(k) && HasToken(s, k)))
  {
    match e
    case CleanKey(j) => CleanKeyIsOpen(s, pl, j);
    case CleanClose => CloseIsSafe(s, pl);
    case _ =>
  }

  /** A whole Clean: from event `a` to its end at event `b`. */
  predicate CleanSpan(events: seq<Event>, a: nat, b: nat) {
    b < |events| && CleaningSince(events, a, b) && FinishesAt(events, b)
  }

  /**
    Every Clean comes to every key that was in the table when it started, and takes exactly those out of the
    table whose token was in the channel then; no key is added meanwhile.
   */
  lemma CleanRemovesExactly(events: seq<Event>, st: seq<State>, a: nat, b: nat, k: string)
    requires IsTrace(events, st) && CleanSpan(events, a, b)
    ensures k in st[a].table ==> Visited(events, a, b, k)
    ensures k in st[b + 1].table <==> k in st[a].table && !Taken(events, st, a, b, k)
  {
    CleanTracks(events, st, a, b, k);
    assert StepsAt(events, st, b);
    FinishStep(st[b], k);
  }

  /** The end of a Clean: nothing is left to do, and what was collected leaves the table. */
  lemma FinishStep(s: State, k: string)
    requires Enabled(s, FinishClean)
    ensures s.cleaner.Some? && k !in s.cleaner.value.todo && s.cleaner.value.drained.None?
    ensures k in Next(s, FinishClean).table <==> k in s.table && k !in s.cleaner.value.toDelete
  {}

  /** Event `i` is a lock's receive of the token of channel `c`. */
  predicate AcquiresAt(events: seq<Event>, st: seq<State>, i: int, c: nat)
    requires 0 <= i < |events| == |st| - 1
  {
    && events[i].Acquire? && events[i].l < |st[i].locks|
    && st[i].locks[events[i].l].phase == Waiting(c)
  }

  /** No lock takes the token of channel `c` between the events `a` and `n`. */
  predicate NotAcquired(events: seq<Event>, st: seq<State>, a: nat, n: nat, c: nat)
    requires n <= |events| == |st| - 1
  {
    forall i {:trigger AcquiresAt(events, st, i, c)} :: a < i < n ==> !AcquiresAt(events, st, i, c)
  }

  /** Until Clean comes to the key, a token that no lock takes stays in its channel. */
  lemma {:induction false} TokenWaits(events: seq<Event>, st: seq<State>, a: nat, n: nat, k: string)
    requires IsTrace(events, st) && CleaningSince(events, a, n) && HasToken(st[a], k)
    requires NotAcquired(events, st, a, n, st[a].table[k])
    ensures if Visited(events, a, n, k) then Taken(events, st, a, n, k) else HasToken(st[n], k)
    decreases n
  {
    var m := n - 1;
    assert StepsAt(events, st, m);
    if m > a {
      TokenWaits(events, st, a, m, k);
      VisitStep(events, a, m, k);
      TakenStep(events, st, a, m, k);
      CleanTracks(events, st, a, m, k);
      assert !FinishesAt(events, m) && !AcquiresAt(events, st, m, st[a].table[k]);
      var pl := TraceInv(events, st, m);
      if !Visited(events, a, n, k) {
        TokenStep(st[m], pl, events[m], k);
      }
    }
  }

  lemma TokenStep(s: State, pl: seq<Place>, e: Event, k: string)
    requires Inv(s, pl) && Enabled(s, e) && s.cleaner.Some? && !e.FinishClean? && HasToken(s, k) && e != CleanKey(k)
    requires !(e.Acquire? && s.locks[e.l].phase == Waiting(s.table[k]))
    ensures HasToken(Next(s, e), k)
  {
    assert TableOk(s, pl, k);
    match e
    case CleanKey(j) => assert TableOk(s, pl, j);
    case CleanClose => CloseIsSafe(s, pl);
    case PutBack(l) => PutBackIsSafe(s, pl, l);
    case _ =>
  }

  /** A key whose token is in its channel, and that no lock takes meanwhile, is gone after the Clean. */
  lemma FreeKeyIsRemoved(events: seq<Event>, st: seq<State>, a: nat, b: nat, k: string)
    requires IsTrace(events, st) && CleanSpan(events, a, b) && HasToken(st[a], k)
    requires NotAcquired(events, st, a, b, st[a].table[k])
    ensures k !in st[b + 1].table
  {
    CleanRemovesExactly(events, st, a, b, k);
    TokenWaits(events, st, a, b, k);
  }

  predicate CleansAt(events: seq<Event>, i: int)
    requires 0 <= i < |events|
  {
    events[i].CleanKey? || events[i].CleanClose?
  }

  /** Nothing but the Clean happens between its start and its end. */
  predicate Quiet(events: seq<Event>, a: nat, b: nat)
    requires b <= |events|
  {
    forall i {:trigger CleansAt(events, i)} :: a < i < b ==> CleansAt(events, i)
  }

  lemma {:induction false} QuietToken(events: seq<Event>, st: seq<State>, a: nat, n: nat, k: string)
    requires IsTrace(events, st) && CleaningSince(events, a, n) && Quiet(events, a, n) && !HasToken(st[a], k)
    ensures !HasToken(st[n], k) && !Taken(events, st, a, n, k)
    decreases n
  {
    var m := n - 1;
    assert StepsAt(events, st, m);
    if m > a {
      QuietToken(events, st, a, m, k);
      TakenStep(events, st, a, m, k);
      assert CleansAt(events, m);
      var pl := TraceInv(events, st, m);
      QuietStep(st[m], pl, events[m], k);
    }
  }

  /** A step of a Clean puts no token anywhere. */
  lemma QuietStep(s: State, pl: seq<Place>, e: Event, k: string)
    requires Inv(s, pl) && Enabled(s, e) && (e.CleanKey? || e.CleanClose?) && !HasToken(s, k)
    ensures !HasToken(Next(s, e), k)
  {
    if e.CleanKey? {
      CleanKeyIsOpen(s, pl, e.k);
    } else {
      CloseIsSafe(s, pl);
    }
  }

  /** Some lock holds the key. */
  ghost predicate IsHeld(s: State, k: string) {
    exists l: nat, i: nat :: Holds(s, l, i) && s.locks[l].keys[i] == k
  }

  /** While no Clean is in progress, a key is held exactly when its channel is in the table without token. */
  lemma HeldIffNoToken(s: State, pl: seq<Place>, k: string)
    requires Inv(s, pl) && s.cleaner.None?
    ensures IsHeld(s, k) <==> k in s.table && !HasToken(s, k)
  {
    if k in s.table {
      assert TableOk(s, pl, k);
      var c := s.table[k];
      assert ChanOk(s, pl, c);
      if pl[c].With? {
        var l, i := pl[c].l, pl[c].i;
        assert LockOk(s, pl, l);
        assert HeldOk(s, pl, l, i);
        assert Holds(s, l, i);
      }
    }
    forall l: nat, i: nat | Holds(s, l, i) && s.locks[l].keys[i] == k ensures k in s.table && !HasToken(s, k) {
      HeldIsCurrent(s, pl, l, i);
    }
  }

  /** After a Clean with nothing in between, the table holds exactly the keys that some lock holds. */
  lemma QuietCleanLeavesHeld(events: seq<Event>, st: seq<State>, a: nat, b: nat, k: string)
    requires IsTrace(events, st) && CleanSpan(events, a, b) && Quiet(events, a, b)
    ensures k in st[b + 1].table <==> IsHeld(st[a], k)
  {
    assert StepsAt(events, st, a);
    var pl := TraceInv(events, st, a);
    HeldIffNoToken(st[a], pl, k);
    CleanRemovesExactly(events, st, a, b, k);
    if HasToken(st[a], k) {
      forall i | a < i < b ensures !AcquiresAt(events, st, i, st[a].table[k]) {
        assert CleansAt(events, i);
      }
      FreeKeyIsRemoved(events, st, a, b, k);
    } else {
      QuietToken(events, st, a, b, k);
    }
  }
}
