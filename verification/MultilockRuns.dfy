/**
  What every run of the multilock machine keeps: mutual exclusion, legal channel use, no cycle of waiting
  locks, and no deadlock other than a lock its user has not released.
 */
module MultilockRuns {
  import opened Options
  import opened LockKeys
  import opened Multilock

  /** The state after a run, or None when some event of it was not possible. */
  function Run(events: seq<Event>): Option<State> {
    if events == [] then Some(INITIAL)
    else
      match Run(events[..|events| - 1])
      case None => None
      case Some(s) => if Enabled(s, events[|events| - 1]) then Some(Next(s, events[|events| - 1])) else None
  }

  predicate Reachable(events: seq<Event>, s: State) {
    Run(events) == Some(s)
  }

  lemma {:induction false} ReachableInv(events: seq<Event>, s: State) returns (pl: seq<Place>)
    requires Reachable(events, s)
    ensures Inv(s, pl)
  {
    if events == [] {
      pl := [];
    } else {
      var n := |events| - 1;
      var before := Run(events[..n]).value;
      var q := ReachableInv(events[..n], before);
      StepKeepsInv(before, q, events[n]);
      pl := Places(before, events[n], q);
    }
  }

  /** Lock `l` has taken its i-th key and not given it back. */
  predicate Holds(s: State, l: nat, i: nat) {
    l < |s.locks| && First(s.locks[l]) <= i < |s.locks[l].chans| && i < |s.locks[l].keys|
  }

  /** Two different locks never hold the same key. */
  lemma MutualExclusion(events: seq<Event>, s: State, l: nat, i: nat, m: nat, j: nat)
    requires Reachable(events, s) && Holds(s, l, i) && Holds(s, m, j)
    requires s.locks[l].keys[i] == s.locks[m].keys[j]
    ensures l == m && i == j
  {
    var pl := ReachableInv(events, s);
    HeldIsCurrent(s, pl, l, i);
    HeldIsCurrent(s, pl, m, j);
  }

  /** A held channel is open, empty, and the table's current one for its key. */
  lemma HeldIsCurrent(s: State, pl: seq<Place>, l: nat, i: nat)
    requires Inv(s, pl) && Holds(s, l, i)
    ensures s.locks[l].keys[i] in s.table && s.table[s.locks[l].keys[i]] == s.locks[l].chans[i] < |s.chans| == |pl|
    ensures pl[s.locks[l].chans[i]] == With(l, i)
    ensures var ch := s.chans[s.locks[l].chans[i]]; !ch.closed && !ch.token && ch.key == s.locks[l].keys[i]
  {
    assert LockOk(s, pl, l);
    assert HeldOk(s, pl, l, i);
    assert ChanOk(s, pl, s.locks[l].chans[i]);
  }

  /** While a lock is held it holds every one of its keys, each through the table's open channel. */
  lemma HeldHoldsAll(events: seq<Event>, s: State, l: nat)
    requires Reachable(events, s) && l < |s.locks| && s.locks[l].phase == Held
    ensures forall i :: 0 <= i < |s.locks[l].keys| ==>
              Holds(s, l, i) && s.locks[l].keys[i] in s.table
              && s.table[s.locks[l].keys[i]] == s.locks[l].chans[i] < |s.chans|
  {
    var pl := ReachableInv(events, s);
    assert LockOk(s, pl, l);
    forall i | 0 <= i < |s.locks[l].keys|
      ensures Holds(s, l, i) && s.locks[l].keys[i] in s.table
              && s.table[s.locks[l].keys[i]] == s.locks[l].chans[i] < |s.chans|
    {
      HeldIsCurrent(s, pl, l, i);
    }
  }

  /** No run sends on a closed channel or closes one twice, and Unlock's sends never block. */
  lemma ChannelsAreUsedLegally(events: seq<Event>, s: State, l: nat)
    requires Reachable(events, s)
    ensures !s.panicked
    ensures l < |s.locks| && s.locks[l].phase.Releasing? ==> Enabled(s, PutBack(l)) && !Next(s, PutBack(l)).panicked
  {
    var pl := ReachableInv(events, s);
    if l < |s.locks| && s.locks[l].phase.Releasing? {
      PutBackIsSafe(s, pl, l);
    }
  }

  /** Whenever `locks.lock` is free the table holds open channels only; getChan never returns a closed one. */
  lemma TableIsOpen(events: seq<Event>, s: State, k: string)
    requires Reachable(events, s) && k in s.table
    ensures s.table[k] < |s.chans| && s.chans[s.table[k]].key == k
    ensures s.cleaner.None? ==> !s.chans[s.table[k]].closed
    ensures s.chans[s.table[k]].closed ==> s.cleaner.Some? && k in s.cleaner.value.toDelete
  {
    var pl := ReachableInv(events, s);
    assert TableOk(s, pl, k);
    assert ChanOk(s, pl, s.table[k]);
  }

  /** At most one channel per key is open. */
  lemma OneOpenChannelPerKey(events: seq<Event>, s: State, c: nat, d: nat)
    requires Reachable(events, s) && c < |s.chans| && d < |s.chans|
    requires !s.chans[c].closed && !s.chans[d].closed && s.chans[c].key == s.chans[d].key
    ensures c == d
  {
    var pl := ReachableInv(events, s);
    assert ChanOk(s, pl, c) && ChanOk(s, pl, d);
  }

  /** The locks that have the token of channel `c`. */
  ghost function Holders(s: State, c: nat): set<nat> {
    set l: nat | l < |s.locks| && HasSome(s, l, c)
  }

  ghost predicate HasSome(s: State, l: nat, c: nat) {
    exists i: nat :: Has(s, l, i, c)
  }

  function InChan(s: State, c: nat): nat
    requires c < |s.chans|
  {
    if s.chans[c].token then 1 else 0
  }

  /** A Clean has received the token of `c` and not yet closed it. */
  function InClean(s: State, c: nat): nat
    requires c < |s.chans|
  {
    if s.cleaner.Some? && s.cleaner.value.drained == Some(s.chans[c].key)
         && s.chans[c].key in s.table && s.table[s.chans[c].key] == c
    then 1 else 0
  }

  /** Token conservation: an open channel has exactly one token, a closed one none. */
  lemma OneTokenPerOpenChannel(events: seq<Event>, s: State, c: nat)
    requires Reachable(events, s) && c < |s.chans|
    ensures InChan(s, c) + |Holders(s, c)| + InClean(s, c) == if s.chans[c].closed then 0 else 1
  {
    var pl := ReachableInv(events, s);
    assert ChanOk(s, pl, c);
    HoldersAre(s, pl, c);
    if s.cleaner.Some? {
      assert CleanerOk(s, pl, s.cleaner.value);
    }
  }

  lemma HoldersAre(s: State, pl: seq<Place>, c: nat)
    requires Inv(s, pl) && c < |s.chans|
    ensures Holders(s, c) == if pl[c].With? then {pl[c].l} else {}
  {
    assert ChanOk(s, pl, c);
    forall l: nat, i: nat | Has(s, l, i, c) ensures pl[c] == With(l, i) {
      assert LockOk(s, pl, l);
      assert HeldOk(s, pl, l, i);
    }
  }

  predicate Blocked(s: State, l: nat) {
    l < |s.locks| && s.locks[l].phase.Waiting? && |s.locks[l].chans| < |s.locks[l].keys|
  }

  /** The key lock `l` is blocked on. */
  function Wanted(s: State, l: nat): string
    requires Blocked(s, l)
  {
    s.locks[l].keys[|s.locks[l].chans|]
  }

  /** Lock `l` is blocked on a channel whose token lock `m` holds. */
  ghost predicate WaitsFor(s: State, l: nat, m: nat) {
    Blocked(s, l) && exists i: nat :: Holds(s, m, i) && s.locks[m].chans[i] == s.locks[l].phase.ch
  }

  /** A waiting lock that others wait for wants a greater key than they do. */
  lemma WaitingIncreases(s: State, pl: seq<Place>, l: nat, m: nat)
    requires Inv(s, pl) && WaitsFor(s, l, m) && Blocked(s, m)
    ensures Less(Wanted(s, l), Wanted(s, m))
  {
    var i: nat :| Holds(s, m, i) && s.locks[m].chans[i] == s.locks[l].phase.ch;
    assert LockOk(s, pl, l) && LockOk(s, pl, m);
    HeldIsCurrent(s, pl, m, i);
    assert Less(s.locks[m].keys[i], s.locks[m].keys[|s.locks[m].chans|]);
  }

  ghost predicate WaitChain(s: State, chain: seq<nat>) {
    && (forall k {:trigger chain[k]} :: 0 <= k < |chain| ==> Blocked(s, chain[k]))
    && (forall k {:trigger chain[k]} :: 0 <= k < |chain| - 1 ==> WaitsFor(s, chain[k], chain[k + 1]))
  }

  lemma {:induction false} ChainIncreases(s: State, pl: seq<Place>, chain: seq<nat>, k: nat)
    requires Inv(s, pl) && WaitChain(s, chain) && 0 < k < |chain|
    ensures Less(Wanted(s, chain[0]), Wanted(s, chain[k]))
  {
    assert WaitsFor(s, chain[k - 1], chain[k - 1 + 1]);
    WaitingIncreases(s, pl, chain[k - 1], chain[k]);
    if k > 1 {
      ChainIncreases(s, pl, chain, k - 1);
      LessTransitive(Wanted(s, chain[0]), Wanted(s, chain[k - 1]), Wanted(s, chain[k]));
    }
  }

  /** No reachable state has a cycle of locks, each waiting for a key the next one holds. */
  lemma NoCycleOfWaiters(events: seq<Event>, s: State, chain: seq<nat>)
    requires Reachable(events, s) && |chain| > 0 && WaitChain(s, chain)
    ensures !WaitsFor(s, chain[|chain| - 1], chain[0])
  {
    var pl := ReachableInv(events, s);
    var n := |chain| - 1;
    if WaitsFor(s, chain[n], chain[0]) {
      WaitingIncreases(s, pl, chain[n], chain[0]);
      if n > 0 {
        ChainIncreases(s, pl, chain, n);
        LessTransitive(Wanted(s, chain[0]), Wanted(s, chain[n]), Wanted(s, chain[0]));
      }
      LessIrreflexive(Wanted(s, chain[0]));
    }
  }

  /** The steps the locks and Clean take on their own, without a new call by a user. */
  predicate Internal(e: Event) {
    match e
    case New(_) => false
    case StartLock(_) => false
    case StartUnlock(_) => false
    case StartClean(owner) => owner.Some?
    case _ => true
  }

  predicate InternalStep(s: State, e: Event) {
    Internal(e) && Enabled(s, e)
  }

  /** A Clean in progress can always go on. */
  lemma CleanGoesOn(s: State, pl: seq<Place>) returns (e: Event)
    requires Inv(s, pl) && s.cleaner.Some?
    ensures InternalStep(s, e) && (e.CleanKey? || e.CleanClose? || e.FinishClean?)
  {
    var cl := s.cleaner.value;
    if cl.drained.Some? {
      e := CleanClose;
    } else if cl.todo == {} {
      e := FinishClean;
    } else {
      var k :| k in cl.todo;
      assert TableOk(s, pl, k);
      e := CleanKey(k);
    }
  }

  /** The locks blocked on keys greater than the one `l` wants. */
  function Above(s: State, l: nat): set<nat>
    requires Blocked(s, l)
  {
    set m | 0 <= m < |s.locks| && Blocked(s, m) && Less(Wanted(s, l), Wanted(s, m))
  }

  lemma AboveShrinks(s: State, l: nat, m: nat)
    requires Blocked(s, l) && Blocked(s, m) && Less(Wanted(s, l), Wanted(s, m))
    ensures Above(s, m) < Above(s, l)
  {
    forall x | x in Above(s, m) ensures x in Above(s, l) {
      LessTransitive(Wanted(s, l), Wanted(s, m), Wanted(s, x));
    }
    LessIrreflexive(Wanted(s, m));
    assert m in Above(s, l) && m !in Above(s, m);
  }

  /** Outcome of following who blocks whom: a step that can be taken, or a lock in use. */
  datatype Cause = CanStep(e: Event) | InUse(l: nat)

  predicate Explains(s: State, why: Cause) {
    match why
    case CanStep(e) => InternalStep(s, e)
    case InUse(l) => l < |s.locks| && s.locks[l].phase == Held
  }

  /** Following the waits-for relation from a blocked lock ends at a step or at a lock in use. */
  lemma {:induction false} Unblock(s: State, pl: seq<Place>, l: nat) returns (why: Cause)
    requires Inv(s, pl) && Blocked(s, l)
    ensures Explains(s, why)
    decreases Above(s, l)
  {
    var c := s.locks[l].phase.ch;
    assert LockOk(s, pl, l);
    assert ChanOk(s, pl, c);
    match pl[c]
    case InChannel => why := CanStep(Acquire(l));
    case Destroyed => why := CanStep(SeeClosed(l));
    case WithCleaner =>
      var e := CleanGoesOn(s, pl);
      why := CanStep(e);
    case With(m, i) =>
      assert LockOk(s, pl, m);
      if Blocked(s, m) {
        assert Holds(s, m, i);
        assert WaitsFor(s, l, m);
        WaitingIncreases(s, pl, l, m);
        AboveShrinks(s, l, m);
        why := Unblock(s, pl, m);
      } else {
        why := HolderMoves(s, pl, m, i, c);
      }
  }

  /** A lock that holds a channel and is not itself blocked is in use or can take a step. */
  lemma HolderMoves(s: State, pl: seq<Place>, m: nat, i: nat, c: nat) returns (why: Cause)
    requires Inv(s, pl) && Has(s, m, i, c) && !Blocked(s, m)
    ensures Explains(s, why)
  {
    assert LockOk(s, pl, m);
    match s.locks[m].phase
    case Held => why := InUse(m);
    case Releasing(_) =>
      PutBackIsSafe(s, pl, m);
      why := CanStep(PutBack(m));
    case Getting =>
      if s.cleaner.None? {
        why := CanStep(GetChan(m));
      } else {
        var e := CleanGoesOn(s, pl);
        why := CanStep(e);
      }
  }

  predicate InFlight(s: State, l: nat) {
    l < |s.locks| && s.locks[l].phase != Idle && s.locks[l].phase != Held
  }

  /**
    Deadlock freedom: when some Lock or Unlock is in flight, a step can be taken without any
    new call, or some lock is held and its user has not unlocked it.
   */
  lemma NoDeadlock(events: seq<Event>, s: State, l: nat) returns (why: Cause)
    requires Reachable(events, s) && InFlight(s, l)
    ensures Explains(s, why)
  {
    var pl := ReachableInv(events, s);
    assert LockOk(s, pl, l);
    if s.cleaner.Some? {
      var e := CleanGoesOn(s, pl);
      why := CanStep(e);
    } else {
      match s.locks[l].phase
      case Getting => why := CanStep(GetChan(l));
      case Waiting(_) => why := Unblock(s, pl, l);
      case Releasing(_) =>
        PutBackIsSafe(s, pl, l);
        why := CanStep(PutBack(l));
      case NeedClean => why := CanStep(StartClean(Some(l)));
    }
  }
}
