/**
  Whole calls of a multilock: a Lock whose keys are free succeeds, an Unlock gives everything back and clears
  the table, and a lock that finds its channel closed goes on with an open one.
 */
module MultilockCalls {
  import opened Options
  import opened LockKeys
  import opened Multilock
  import opened MultilockRuns
  import opened MultilockClean

  /** The steps lock `l` takes on its own, with the Clean of its Unlock. */
  predicate OwnStep(e: Event, l: nat) {
    match e
    case StartLock(m) => m == l
    case GetChan(m) => m == l
    case Acquire(m) => m == l
    case SeeClosed(m) => m == l
    case StartUnlock(m) => m == l
    case PutBack(m) => m == l
    case StartClean(owner) => owner == Some(l)
    case CleanKey(_) => true
    case CleanClose => true
    case FinishClean => true
    case New(_) => false
  }

  /** A run from `s` to `t` of steps of lock `l` only. */
  predicate Leads(s: State, events: seq<Event>, l: nat, t: State)
    decreases |events|
  {
    if events == [] then s == t
    else Enabled(s, events[0]) && OwnStep(events[0], l) && Leads(Next(s, events[0]), events[1..], l, t)
  }

  lemma LeadsFirst(s: State, e: Event, rest: seq<Event>, l: nat, t: State)
    requires Enabled(s, e) && OwnStep(e, l) && Leads(Next(s, e), rest, l, t)
    ensures Leads(s, [e] + rest, l, t)
  {
    assert ([e] + rest)[1..] == rest;
  }

  lemma {:induction false} LeadsThen(s: State, first: seq<Event>, u: State, rest: seq<Event>, l: nat, t: State)
    requires Leads(s, first, l, u) && Leads(u, rest, l, t)
    ensures Leads(s, first + rest, l, t)
    decreases |first|
  {
    if first == [] {
      assert first + rest == rest;
    } else {
      LeadsThen(Next(s, first[0]), first[1..], u, rest, l, t);
      assert first + rest == [first[0]] + (first[1..] + rest);
      LeadsFirst(s, first[0], first[1..] + rest, l, t);
    }
  }

  // Lock

  /** No lock holds a key that lock `l` still has to take. */
  ghost predicate RestIsFree(s: State, l: nat)
    requires IsLock(s, l)
  {
    forall i {:trigger s.locks[l].keys[i]} ::
      |s.locks[l].chans| <= i < |s.locks[l].keys| ==> !IsHeld(s, s.locks[l].keys[i])
  }

  /** Getting a free key: the channel has its token, and is then empty. */
  lemma TakeKey(s: State, pl: seq<Place>, l: nat) returns (t: State, q: seq<Place>)
    requires Inv(s, pl) && Enabled(s, GetChan(l)) && RestIsFree(s, l)
    ensures Leads(s, [GetChan(l), Acquire(l)], l, t) && Inv(t, q) && t.cleaner.None?
    ensures |t.locks| == |s.locks| && t.locks == s.locks[l := t.locks[l]]
    ensures var lk := s.locks[l];
            && t.locks[l].keys == lk.keys && |t.locks[l].chans| == |lk.chans| + 1
            && t.locks[l].phase == if |lk.chans| + 1 < |lk.keys| then Getting else Held
  {
    var key := s.locks[l].keys[|s.locks[l].chans|];
    HeldIffNoToken(s, pl, key);
    var u := Next(s, GetChan(l));
    GetChanKeepsInv(s, pl, l);
    var pl' := Places(s, GetChan(l), pl);
    assert Enabled(u, Acquire(l));
    AcquireKeepsInv(u, pl', l);
    t, q := Next(u, Acquire(l)), Places(u, Acquire(l), pl');
    assert Leads(t, [], l, t);
    LeadsFirst(u, Acquire(l), [], l, t);
    LeadsFirst(s, GetChan(l), [Acquire(l)], l, t);
    assert [GetChan(l)] + [Acquire(l)] == [GetChan(l), Acquire(l)];
    assert t.locks == s.locks[l := t.locks[l]];
  }

  /** The keys still to take stay free. */
  lemma RestStaysFree(s: State, pl: seq<Place>, t: State, l: nat)
    requires Inv(s, pl) && IsLock(s, l) && s.locks[l].phase == Getting && RestIsFree(s, l)
    requires |t.locks| == |s.locks| && t.locks == s.locks[l := t.locks[l]]
    requires t.locks[l].keys == s.locks[l].keys && |t.locks[l].chans| == |s.locks[l].chans| + 1
    requires !t.locks[l].phase.Releasing?
    ensures RestIsFree(t, l)
  {
    var keys := s.locks[l].keys;
    assert LockOk(s, pl, l);
    forall i, m: nat, j: nat | |t.locks[l].chans| <= i < |keys| && Holds(t, m, j)
      ensures t.locks[m].keys[j] != keys[i]
    {
      if m == l {
        assert Less(keys[j], keys[i]);
        LessIrreflexive(keys[i]);
      } else {
        assert Holds(s, m, j);
      }
    }
  }

  lemma {:induction false} LockRest(s: State, pl: seq<Place>, l: nat)
    returns (events: seq<Event>, t: State, q: seq<Place>)
    requires Inv(s, pl) && Enabled(s, GetChan(l)) && RestIsFree(s, l)
    ensures Leads(s, events, l, t) && Inv(t, q) && t.cleaner.None?
    ensures |t.locks| == |s.locks| && t.locks == s.locks[l := t.locks[l]]
    ensures t.locks[l].phase == Held && t.locks[l].keys == s.locks[l].keys
    decreases |s.locks[l].keys| - |s.locks[l].chans|
  {
    var u, pu := TakeKey(s, pl, l);
    if u.locks[l].phase == Held {
      events, t, q := [GetChan(l), Acquire(l)], u, pu;
    } else {
      RestStaysFree(s, pl, u, l);
      var rest;
      rest, t, q := LockRest(u, pu, l);
      events := [GetChan(l), Acquire(l)] + rest;
      LeadsThen(s, [GetChan(l), Acquire(l)], u, rest, l, t);
      assert t.locks == s.locks[l := t.locks[l]];
    }
  }

  /**
    A Lock none of whose keys is held, called while no Clean is in progress, can run to its end without a step of
    anybody else, and then holds them all.
   */
  lemma LockSucceeds(past: seq<Event>, s: State, l: nat) returns (events: seq<Event>, t: State)
    requires Reachable(past, s) && Enabled(s, StartLock(l)) && s.cleaner.None?
    requires forall i {:trigger s.locks[l].keys[i]} ::
               0 <= i < |s.locks[l].keys| ==> !IsHeld(s, s.locks[l].keys[i])
    ensures Leads(s, events, l, t) && |t.locks| == |s.locks| && t.locks == s.locks[l := t.locks[l]]
    ensures t.locks[l].phase == Held && t.locks[l].keys == s.locks[l].keys
    ensures forall i {:trigger Holds(t, l, i)} :: 0 <= i < |t.locks[l].keys| ==> Holds(t, l, i)
  {
    var pl := ReachableInv(past, s);
    assert LockOk(s, pl, l);
    var u := Next(s, StartLock(l));
    StepKeepsInv(s, pl, StartLock(l));
    forall m: nat, j: nat | Holds(u, m, j) ensures Holds(s, m, j) {}
    assert RestIsFree(u, l);
    var rest, q;
    rest, t, q := LockRest(u, pl, l);
    events := [StartLock(l)] + rest;
    LeadsFirst(s, StartLock(l), rest, l, t);
    assert LockOk(t, q, l);
    assert t.locks == s.locks[l := t.locks[l]];
  }

  // Unlock

  /** Giving back the tokens one after the other. */
  lemma {:induction false} ReleaseRest(s: State, pl: seq<Place>, l: nat)
    returns (events: seq<Event>, t: State, q: seq<Place>)
    requires Inv(s, pl) && IsLock(s, l) && s.locks[l].phase.Releasing? && s.cleaner.None?
    ensures Leads(s, events, l, t) && Inv(t, q) && t.cleaner.None?
    ensures t.locks == s.locks[l := s.locks[l].(chans := [], phase := NeedClean)]
    decreases |s.locks[l].chans| - s.locks[l].phase.j
  {
    assert LockOk(s, pl, l);
    PutBackIsSafe(s, pl, l);
    PutBackKeepsInv(s, pl, l);
    var u, pu := Next(s, PutBack(l)), Places(s, PutBack(l), pl);
    var rest: seq<Event> := [];
    if u.locks[l].phase.Releasing? {
      rest, t, q := ReleaseRest(u, pu, l);
    } else {
      t, q := u, pu;
      assert Leads(t, [], l, t);
    }
    events := [PutBack(l)] + rest;
    LeadsFirst(s, PutBack(l), rest, l, t);
    assert t.locks == s.locks[l := s.locks[l].(chans := [], phase := NeedClean)];
  }

  /** What a Clean in progress will take out of the table when nobody else moves. */
  predicate WillGo(s: State, k: string) {
    && s.cleaner.Some? && k in s.table
    && (k in s.cleaner.value.toDelete || s.cleaner.value.drained == Some(k)
        || (k in s.cleaner.value.todo && HasToken(s, k)))
  }

  lemma CleanStepKeeps(s: State, pl: seq<Place>, e: Event, k: string)
    requires Inv(s, pl) && Enabled(s, e) && (e.CleanKey? || e.CleanClose?)
    ensures var t := Next(s, e);
            && t.table == s.table && t.locks == s.locks && t.cleaner.Some?
            && t.cleaner.value.owner == s.cleaner.value.owner
            && (WillGo(t, k) <==> WillGo(s, k))
  {
    var cl := s.cleaner.value;
    if k in s.table {
      assert TableOk(s, pl, k);
      assert ChanOk(s, pl, s.table[k]);
    }
    if e.CleanKey? {
      CleanKeyIsOpen(s, pl, e.k);
      assert TableOk(s, pl, e.k);
    } else {
      CloseIsSafe(s, pl);
      assert TableOk(s, pl, cl.drained.value);
    }
  }

  function CleanLeft(s: State): nat
    requires s.cleaner.Some?
  {
    2 * |s.cleaner.value.todo| + if s.cleaner.value.drained.Some? then 1 else 0
  }

  /** A Clean that nobody disturbs. */
  lemma {:induction false} CleanRest(s: State, pl: seq<Place>, l: nat) returns (events: seq<Event>, t: State)
    requires Inv(s, pl) && s.cleaner.Some? && s.cleaner.value.owner == Some(l)
    ensures Leads(s, events, l, t) && t.cleaner.None?
    ensures IsLock(s, l) && t.locks == s.locks[l := s.locks[l].(phase := Idle)]
    ensures forall k {:trigger k in t.table} :: k in t.table <==> k in s.table && !WillGo(s, k)
    decreases CleanLeft(s)
  {
    var e := CleanGoesOn(s, pl);
    var u := Next(s, e);
    var rest: seq<Event> := [];
    if e.FinishClean? {
      t := u;
      assert Leads(t, [], l, t);
    } else {
      StepKeepsInv(s, pl, e);
      forall k ensures WillGo(u, k) <==> WillGo(s, k) {
        CleanStepKeeps(s, pl, e, k);
      }
      CleanStepKeeps(s, pl, e, "");
      rest, t := CleanRest(u, Places(s, e, pl), l);
    }
    events := [e] + rest;
    LeadsFirst(s, e, rest, l, t);
  }

  /** The Clean at the end of an Unlock. */
  lemma CleanAll(s: State, pl: seq<Place>, l: nat) returns (events: seq<Event>, t: State)
    requires Inv(s, pl) && Enabled(s, StartClean(Some(l)))
    ensures Leads(s, events, l, t) && t.cleaner.None?
    ensures t.locks == s.locks[l := s.locks[l].(phase := Idle)]
    ensures forall k {:trigger k in t.table} :: k in t.table <==> IsHeld(s, k)
  {
    var u := Next(s, StartClean(Some(l)));
    StepKeepsInv(s, pl, StartClean(Some(l)));
    var rest;
    rest, t := CleanRest(u, pl, l);
    events := [StartClean(Some(l))] + rest;
    LeadsFirst(s, StartClean(Some(l)), rest, l, t);
    forall k ensures k in t.table <==> IsHeld(s, k) {
      HeldIffNoToken(s, pl, k);
    }
    assert t.locks == s.locks[l := s.locks[l].(phase := Idle)];
  }

  /** Some lock other than `l` holds the key. */
  ghost predicate HeldByOther(s: State, l: nat, k: string) {
    exists m: nat, i: nat :: m != l && Holds(s, m, i) && s.locks[m].keys[i] == k
  }

  /**
    An Unlock of a held lock, called while no Clean is in progress, can run to its end without a step of anybody
    else. Then the lock can be taken again, the other locks are as before, and the table holds exactly the keys
    that other locks hold.
   */
  lemma UnlockCompletes(past: seq<Event>, s: State, l: nat) returns (events: seq<Event>, t: State)
    requires Reachable(past, s) && Enabled(s, StartUnlock(l)) && s.cleaner.None?
    ensures Leads(s, events, l, t)
    ensures t.locks == s.locks[l := Lk(s.locks[l].keys, [], Idle)] && t.cleaner.None?
    ensures forall k {:trigger k in t.table} :: k in t.table <==> HeldByOther(s, l, k)
  {
    var pl := ReachableInv(past, s);
    assert LockOk(s, pl, l);
    StepKeepsInv(s, pl, StartUnlock(l));
    var u0 := Next(s, StartUnlock(l));
    var put, u1, p1 := ReleaseRest(u0, pl, l);
    var clean;
    clean, t := CleanAll(u1, p1, l);
    LeadsThen(u0, put, u1, clean, l, t);
    events := [StartUnlock(l)] + (put + clean);
    LeadsFirst(s, StartUnlock(l), put + clean, l, t);
    forall k ensures k in t.table <==> HeldByOther(s, l, k) {
      OthersHold(s, u1, l, k);
    }
    assert t.locks == s.locks[l := Lk(s.locks[l].keys, [], Idle)];
  }

  /** After lock `l` has released everything, a key is held exactly when another lock holds it. */
  lemma OthersHold(s: State, u: State, l: nat, k: string)
    requires IsLock(s, l) && u.locks == s.locks[l := Lk(s.locks[l].keys, [], NeedClean)]
    ensures IsHeld(u, k) <==> HeldByOther(s, l, k)
  {
    if IsHeld(u, k) {
      var m: nat, i: nat :| Holds(u, m, i) && u.locks[m].keys[i] == k;
      assert Holds(s, m, i);
    }
    if HeldByOther(s, l, k) {
      var m: nat, i: nat :| m != l && Holds(s, m, i) && s.locks[m].keys[i] == k;
      assert Holds(u, m, i);
    }
  }

  // A closed channel

  /** A lock that waited on a channel which Clean has closed waits on an open one of the same key after a retry. */
  lemma RetryFindsOpen(past: seq<Event>, s: State, l: nat) returns (t: State)
    requires Reachable(past, s) && Blocked(s, l) && s.locks[l].phase.ch < |s.chans|
    requires s.chans[s.locks[l].phase.ch].closed && s.cleaner.None?
    ensures Leads(s, [SeeClosed(l), GetChan(l)], l, t)
    ensures Blocked(t, l) && Wanted(t, l) == Wanted(s, l) && t.locks[l].chans == s.locks[l].chans
    ensures t.locks[l].phase.ch < |t.chans| && !t.chans[t.locks[l].phase.ch].closed
    ensures t.chans[t.locks[l].phase.ch].key == Wanted(s, l)
  {
    var pl := ReachableInv(past, s);
    assert ChanOk(s, pl, s.locks[l].phase.ch);
    var u := Next(s, SeeClosed(l));
    StepKeepsInv(s, pl, SeeClosed(l));
    t := Next(u, GetChan(l));
    if Wanted(s, l) in s.table {
      assert TableOk(s, pl, Wanted(s, l));
      assert ChanOk(s, pl, s.table[Wanted(s, l)]);
    }
    assert Leads(t, [], l, t);
    LeadsFirst(u, GetChan(l), [], l, t);
    LeadsFirst(s, SeeClosed(l), [GetChan(l)], l, t);
    assert [SeeClosed(l)] + [GetChan(l)] == [SeeClosed(l), GetChan(l)];
  }
}
