/**
  Multilocks over named one-token channels (`multilock.go`) as a step machine: any number of locks, every
  interleaving of `Lock`, `Unlock`, `Yield` and `Clean`. A step is one channel operation or one region under
  the global `locks.lock`; `Clean` holds that lock over several steps, during which others may still take
  and return tokens.
 */
module Multilock {
  import opened Options
  import opened LockKeys

  /** A key channel: one buffer slot. `key` is the name it was made for. */
  datatype Chan = Chan(key: string, token: bool, closed: bool)

  datatype Phase =
    | Idle
    | Getting              // about to call getChan for the next key
    | Waiting(ch: nat)     // blocked in a receive
    | Held                 // Lock has returned
    | Releasing(j: nat)    // Unlock is about to send on chans[j]
    | NeedClean
    | Cleaning

  datatype Lk = Lk(keys: seq<string>, chans: seq<nat>, phase: Phase)

  /** A `Clean` in progress: its caller, keys not yet visited, the token in hand, `toDelete`. */
  datatype Cleaner = Cleaner(owner: Option<nat>, todo: set<string>, drained: Option<string>, toDelete: set<string>)

  /** `cleaner` is Some while a Clean holds `locks.lock`; `panicked` after an illegal channel use. */
  datatype State = State(
    table: map<string, nat>,
    chans: seq<Chan>,
    locks: seq<Lk>,
    cleaner: Option<Cleaner>,
    panicked: bool)

  const INITIAL: State := State(map[], [], [], None, false)

  datatype Event =
    | New(names: seq<string>)
    | StartLock(l: nat)
    | GetChan(l: nat)
    | Acquire(l: nat)         // received the token
    | SeeClosed(l: nat)       // received from a closed channel: try the key again
    | StartUnlock(l: nat)
    | PutBack(l: nat)
    | StartClean(owner: Option<nat>)
    | CleanKey(k: string)     // one round of the loop in Clean
    | CleanClose
    | FinishClean

  predicate IsLock(s: State, l: nat) {
    l < |s.locks|
  }

  /** The channel operation of this event would not block. */
  predicate Enabled(s: State, e: Event) {
    !s.panicked &&
    match e
    case New(names) => names != []
    case StartLock(l) => IsLock(s, l) && s.locks[l].phase == Idle
    case GetChan(l) =>
      && IsLock(s, l) && s.locks[l].phase == Getting && s.cleaner.None?
      && |s.locks[l].chans| < |s.locks[l].keys|
    case Acquire(l) =>
      && IsLock(s, l) && s.locks[l].phase.Waiting? && s.locks[l].phase.ch < |s.chans|
      && s.chans[s.locks[l].phase.ch].token
    case SeeClosed(l) =>
      IsLock(s, l) && s.locks[l].phase.Waiting? && s.locks[l].phase.ch < |s.chans|
      && s.chans[s.locks[l].phase.ch].closed && !s.chans[s.locks[l].phase.ch].token
    case StartUnlock(l) => IsLock(s, l) && s.locks[l].phase == Held
    case PutBack(l) =>
      ReleasesNext(s, l) && var c := s.chans[s.locks[l].chans[s.locks[l].phase.j]]; c.closed || !c.token
    case StartClean(owner) =>
      s.cleaner.None? && (owner.Some? ==> IsLock(s, owner.value) && s.locks[owner.value].phase == NeedClean)
    case CleanKey(k) => s.cleaner.Some? && s.cleaner.value.drained.None? && k in s.cleaner.value.todo
                          && k in s.table && s.table[k] < |s.chans|
    case CleanClose => s.cleaner.Some? && s.cleaner.value.drained.Some?
                         && s.cleaner.value.drained.value in s.table
                         && s.table[s.cleaner.value.drained.value] < |s.chans|
    case FinishClean => s.cleaner.Some? && s.cleaner.value.drained.None? && s.cleaner.value.todo == {}
  }

  predicate ReleasesNext(s: State, l: nat) {
    && IsLock(s, l)
    && s.locks[l].phase.Releasing?
    && s.locks[l].phase.j < |s.locks[l].chans|
    && s.locks[l].chans[s.locks[l].phase.j] < |s.chans|
  }

  function WithLock(s: State, l: nat, lk: Lk): State
    requires IsLock(s, l)
  {
    s.(locks := s.locks[l := lk])
  }

  function Next(s: State, e: Event): State
    requires Enabled(s, e)
  {
    match e
    case New(names) => s.(locks := s.locks + [Lk(KeysFor(names), [], Idle)])
    case StartLock(l) => WithLock(s, l, s.locks[l].(chans := [], phase := Getting))
    case GetChan(l) => AfterGetChan(s, l, s.locks[l].keys[|s.locks[l].chans|])
    case Acquire(l) => AfterAcquire(s, l, s.locks[l].phase.ch)
    case SeeClosed(l) => WithLock(s, l, s.locks[l].(phase := Getting))
    case StartUnlock(l) =>
      WithLock(s, l, s.locks[l].(phase := if s.locks[l].chans == [] then NeedClean else Releasing(0)))
    case PutBack(l) => AfterPutBack(s, l, s.locks[l].phase.j)
    case StartClean(owner) =>
      var t := s.(cleaner := Some(Cleaner(owner, s.table.Keys, None, {})));
      if owner.None? then t else WithLock(t, owner.value, s.locks[owner.value].(phase := Cleaning))
    case CleanKey(k) => AfterCleanKey(s, k, s.table[k])
    case CleanClose => AfterClose(s, s.cleaner.value.drained.value)
    case FinishClean => AfterFinish(s, s.cleaner.value)
  }

  function AfterGetChan(s: State, l: nat, key: string): State
    requires IsLock(s, l)
  {
    if key in s.table then WithLock(s, l, s.locks[l].(phase := Waiting(s.table[key])))
    else WithLock(s.(chans := s.chans + [Chan(key, true, false)], table := s.table[key := |s.chans|]),
                  l, s.locks[l].(phase := Waiting(|s.chans|)))
  }

  function AfterAcquire(s: State, l: nat, c: nat): State
    requires IsLock(s, l) && c < |s.chans|
  {
    var chans := s.locks[l].chans + [c];
    WithLock(s.(chans := s.chans[c := s.chans[c].(token := false)]), l,
             s.locks[l].(chans := chans, phase := if |chans| < |s.locks[l].keys| then Getting else Held))
  }

  /** Give a token back: a send on a closed channel panics. */
  function AfterPutBack(s: State, l: nat, j: nat): State
    requires ReleasesNext(s, l) && j == s.locks[l].phase.j
  {
    var c := s.locks[l].chans[j];
    if s.chans[c].closed then s.(panicked := true)
    else WithLock(s.(chans := s.chans[c := s.chans[c].(token := true)]), l,
                  if j + 1 < |s.locks[l].chans| then s.locks[l].(phase := Releasing(j + 1))
                  else s.locks[l].(chans := [], phase := NeedClean))
  }

  /** Receive a token if there is one; a closed channel is always ready to receive. */
  function AfterCleanKey(s: State, k: string, c: nat): State
    requires s.cleaner.Some? && c < |s.chans|
  {
    var cl := s.cleaner.value.(todo := s.cleaner.value.todo - {k});
    if s.chans[c].token || s.chans[c].closed
    then s.(chans := s.chans[c := s.chans[c].(token := false)], cleaner := Some(cl.(drained := Some(k))))
    else s.(cleaner := Some(cl))
  }

  /** Closing a closed channel panics. */
  function AfterClose(s: State, k: string): State
    requires s.cleaner.Some? && k in s.table && s.table[k] < |s.chans|
  {
    var cl, c := s.cleaner.value, s.table[k];
    if s.chans[c].closed then s.(panicked := true)
    else s.(chans := s.chans[c := s.chans[c].(closed := true)],
            cleaner := Some(cl.(drained := None, toDelete := cl.toDelete + {k})))
  }

  function AfterFinish(s: State, cl: Cleaner): State {
    var t := s.(table := s.table - cl.toDelete, cleaner := None);
    if cl.owner.Some? && IsLock(s, cl.owner.value)
    then WithLock(t, cl.owner.value, s.locks[cl.owner.value].(phase := Idle))
    else t
  }

  /** Where the one token of a channel is. */
  datatype Place = InChannel | With(l: nat, i: nat) | WithCleaner | Destroyed

  /** The first channel of a lock whose token it has not given back. */
  function First(lk: Lk): nat {
    if lk.phase.Releasing? then lk.phase.j else 0
  }

  /** Lock `l` took channel `c` for its i-th key and has not returned the token. */
  predicate Has(s: State, l: nat, i: nat, c: nat) {
    IsLock(s, l) && First(s.locks[l]) <= i < |s.locks[l].chans| && s.locks[l].chans[i] == c
  }

  predicate ChanOk(s: State, pl: seq<Place>, c: nat)
    requires c < |s.chans| == |pl|
  {
    var ch := s.chans[c];
    && ch.token == pl[c].InChannel?
    && ch.closed == pl[c].Destroyed?
    && (pl[c].Destroyed? || (ch.key in s.table && s.table[ch.key] == c))
    && (pl[c].WithCleaner? ==> s.cleaner.Some? && s.cleaner.value.drained == Some(ch.key))
    && (pl[c].With? ==> Has(s, pl[c].l, pl[c].i, c))
  }

  predicate TableOk(s: State, pl: seq<Place>, k: string)
    requires |s.chans| == |pl| && k in s.table
  {
    var c := s.table[k];
    && c < |s.chans|
    && s.chans[c].key == k
    && (pl[c].Destroyed? ==> s.cleaner.Some? && k in s.cleaner.value.toDelete)
  }

  predicate ShapeOk(lk: Lk, chans: seq<Chan>) {
    && Ascending(lk.keys)
    && lk.keys != []
    && match lk.phase {
         case Idle => lk.chans == []
         case Getting => |lk.chans| < |lk.keys|
         case Waiting(ch) => |lk.chans| < |lk.keys| && ch < |chans| && chans[ch].key == lk.keys[|lk.chans|]
         case Held => |lk.chans| == |lk.keys|
         case Releasing(j) => j < |lk.chans| == |lk.keys|
         case NeedClean => lk.chans == []
         case Cleaning => lk.chans == []
       }
  }

  predicate HeldOk(s: State, pl: seq<Place>, l: nat, i: nat)
    requires IsLock(s, l) && i < |s.locks[l].chans| <= |s.locks[l].keys| && |s.chans| == |pl|
  {
    var c := s.locks[l].chans[i];
    c < |s.chans| && pl[c] == With(l, i) && s.chans[c].key == s.locks[l].keys[i]
  }

  predicate LockOk(s: State, pl: seq<Place>, l: nat)
    requires IsLock(s, l) && |s.chans| == |pl|
  {
    && ShapeOk(s.locks[l], s.chans)
    && (forall i {:trigger HeldOk(s, pl, l, i)} ::
          First(s.locks[l]) <= i < |s.locks[l].chans| ==> HeldOk(s, pl, l, i))
    && (s.locks[l].phase == Cleaning ==> s.cleaner.Some? && s.cleaner.value.owner == Some(l))
  }

  predicate CleanedOk(s: State, pl: seq<Place>, k: string)
    requires |s.chans| == |pl|
  {
    k in s.table && s.table[k] < |pl| && pl[s.table[k]].Destroyed?
  }

  predicate CleanerOk(s: State, pl: seq<Place>, cl: Cleaner)
    requires |s.chans| == |pl|
  {
    && cl.todo <= s.table.Keys
    && cl.todo !! cl.toDelete
    && (forall k {:trigger CleanedOk(s, pl, k)} :: k in cl.toDelete ==> CleanedOk(s, pl, k))
    && (cl.drained.Some? ==>
          && cl.drained.value !in cl.todo && cl.drained.value !in cl.toDelete
          && cl.drained.value in s.table && s.table[cl.drained.value] < |pl|
          && pl[s.table[cl.drained.value]].WithCleaner?)
    && (cl.owner.Some? ==> IsLock(s, cl.owner.value) && s.locks[cl.owner.value].phase == Cleaning)
  }

  /**
    The token of every channel is in exactly one place, given by `pl`: an open channel is the
    table's current one for its key and its token is in it, with one lock, or in the hand
    of a Clean about to close it.
   */
  ghost predicate Inv(s: State, pl: seq<Place>) {
    && !s.panicked
    && |s.chans| == |pl|
    && (forall c {:trigger ChanOk(s, pl, c)} :: 0 <= c < |s.chans| ==> ChanOk(s, pl, c))
    && (forall k {:trigger TableOk(s, pl, k)} :: k in s.table ==> TableOk(s, pl, k))
    && (forall l {:trigger LockOk(s, pl, l)} :: 0 <= l < |s.locks| ==> LockOk(s, pl, l))
    && (s.cleaner.Some? ==> CleanerOk(s, pl, s.cleaner.value))
  }

  /** How the places move with a step. */
  function Places(s: State, e: Event, pl: seq<Place>): seq<Place>
    requires Enabled(s, e) && |pl| == |s.chans|
  {
    match e
    case GetChan(l) => if s.locks[l].keys[|s.locks[l].chans|] in s.table then pl else pl + [InChannel]
    case Acquire(l) => pl[s.locks[l].phase.ch := With(l, |s.locks[l].chans|)]
    case PutBack(l) => pl[s.locks[l].chans[s.locks[l].phase.j] := InChannel]
    case CleanKey(k) => if s.chans[s.table[k]].token then pl[s.table[k] := WithCleaner] else pl
    case CleanClose => pl[s.table[s.cleaner.value.drained.value] := Destroyed]
    case _ => pl
  }

  /** A lock changed its phase only; what it holds is as before. */
  lemma PhaseKeepsInv(s: State, pl: seq<Place>, l: nat, lk: Lk)
    requires Inv(s, pl) && IsLock(s, l) && s.locks[l].phase != Cleaning && lk.phase != Cleaning
    requires lk.keys == s.locks[l].keys && lk.chans == s.locks[l].chans && First(lk) == First(s.locks[l])
    requires ShapeOk(lk, s.chans)
    ensures Inv(WithLock(s, l, lk), pl)
  {
    var t := WithLock(s, l, lk);
    forall c | 0 <= c < |t.chans| ensures ChanOk(t, pl, c) {
      assert ChanOk(s, pl, c);
    }
    forall k | k in t.table ensures TableOk(t, pl, k) {
      assert TableOk(s, pl, k);
    }
    forall m | 0 <= m < |t.locks| ensures LockOk(t, pl, m) {
      LockFrame(s, t, pl, m);
    }
    CleanerFrame(s, t, pl);
  }

  lemma LockFrame(s: State, t: State, pl: seq<Place>, m: nat)
    requires Inv(s, pl) && IsLock(s, m) && IsLock(t, m) && t.chans == s.chans && t.cleaner == s.cleaner
    requires t.locks[m].chans == s.locks[m].chans && t.locks[m].keys == s.locks[m].keys
    requires t.locks[m] == s.locks[m] || (First(t.locks[m]) == First(s.locks[m]) && ShapeOk(t.locks[m], t.chans))
    requires t.locks[m].phase == Cleaning ==> s.locks[m].phase == Cleaning
    ensures LockOk(t, pl, m)
  {
    assert LockOk(s, pl, m);
    forall i | First(t.locks[m]) <= i < |t.locks[m].chans| ensures HeldOk(t, pl, m, i) {
      assert HeldOk(s, pl, m, i);
    }
  }

  lemma CleanerFrame(s: State, t: State, pl: seq<Place>)
    requires Inv(s, pl) && t.table == s.table && |t.chans| == |s.chans| && t.cleaner == s.cleaner
    requires |t.locks| >= |s.locks|
    requires forall l :: 0 <= l < |s.locks| && s.locks[l].phase == Cleaning ==> t.locks[l].phase == Cleaning
    ensures t.cleaner.Some? ==> CleanerOk(t, pl, t.cleaner.value)
  {
    if t.cleaner.Some? {
      forall k | k in t.cleaner.value.toDelete ensures CleanedOk(t, pl, k) {
        assert CleanedOk(s, pl, k);
      }
    }
  }

  lemma NewKeepsInv(s: State, pl: seq<Place>, names: seq<string>)
    requires Inv(s, pl) && names != []
    ensures Inv(Next(s, New(names)), pl)
  {
    var t := Next(s, New(names));
    forall c | 0 <= c < |t.chans| ensures ChanOk(t, pl, c) {
      assert ChanOk(s, pl, c);
    }
    forall k | k in t.table ensures TableOk(t, pl, k) {
      assert TableOk(s, pl, k);
    }
    forall m | 0 <= m < |t.locks| ensures LockOk(t, pl, m) {
      if m < |s.locks| {
        LockFrame(s, t, pl, m);
      }
    }
    CleanerFrame(s, t, pl);
  }

  /** A lock with the channel it asked for; the channel is new when the key has none. */
  lemma GetNewKeepsInv(s: State, pl: seq<Place>, l: nat, key: string)
    requires Inv(s, pl) && Enabled(s, GetChan(l)) && key == s.locks[l].keys[|s.locks[l].chans|] && key !in s.table
    ensures Inv(AfterGetChan(s, l, key), pl + [InChannel])
  {
    var t, q := AfterGetChan(s, l, key), pl + [InChannel];
    forall c | 0 <= c < |t.chans| ensures ChanOk(t, q, c) {
      if c < |s.chans| {
        assert ChanOk(s, pl, c);
      }
    }
    forall k | k in t.table ensures TableOk(t, q, k) {
      if k != key {
        assert TableOk(s, pl, k);
      }
    }
    forall m | 0 <= m < |t.locks| ensures LockOk(t, q, m) {
      assert LockOk(s, pl, m);
      forall i | First(t.locks[m]) <= i < |t.locks[m].chans| ensures HeldOk(t, q, m, i) {
        assert HeldOk(s, pl, m, i);
      }
    }
  }

  lemma GetChanKeepsInv(s: State, pl: seq<Place>, l: nat)
    requires Inv(s, pl) && Enabled(s, GetChan(l))
    ensures Inv(Next(s, GetChan(l)), Places(s, GetChan(l), pl))
  {
    var key := s.locks[l].keys[|s.locks[l].chans|];
    assert LockOk(s, pl, l);
    if key in s.table {
      assert TableOk(s, pl, key);
      PhaseKeepsInv(s, pl, l, s.locks[l].(phase := Waiting(s.table[key])));
    } else {
      GetNewKeepsInv(s, pl, l, key);
    }
  }

  /** Receiving the token of a channel moves it from the channel to the lock. */
  lemma AcquireKeepsInv(s: State, pl: seq<Place>, l: nat)
    requires Inv(s, pl) && Enabled(s, Acquire(l))
    ensures Inv(Next(s, Acquire(l)), Places(s, Acquire(l), pl))
  {
    var t, q, c := Next(s, Acquire(l)), Places(s, Acquire(l), pl), s.locks[l].phase.ch;
    assert LockOk(s, pl, l) && ChanOk(s, pl, c);
    forall d | 0 <= d < |t.chans| ensures ChanOk(t, q, d) {
      assert ChanOk(s, pl, d);
    }
    TableKeepsOk(s, t, pl, q, c);
    forall m | 0 <= m < |t.locks| ensures LockOk(t, q, m) {
      AcquireLock(s, pl, l, m);
    }
    CleanerKeepsOk(s, t, pl, q, c);
  }

  lemma AcquireLock(s: State, pl: seq<Place>, l: nat, m: nat)
    requires Inv(s, pl) && Enabled(s, Acquire(l)) && IsLock(s, m)
    ensures LockOk(Next(s, Acquire(l)), Places(s, Acquire(l), pl), m)
  {
    var t, q, c := Next(s, Acquire(l)), Places(s, Acquire(l), pl), s.locks[l].phase.ch;
    assert LockOk(s, pl, l) && ChanOk(s, pl, c);
    assert LockOk(s, pl, m);
    ShapeFrame(t.locks[m], s.chans, t.chans);
    forall i | First(t.locks[m]) <= i < |t.locks[m].chans| ensures HeldOk(t, q, m, i) {
      if i < |s.locks[m].chans| {
        assert HeldOk(s, pl, m, i);
      }
    }
  }

  lemma ShapeFrame(lk: Lk, chans: seq<Chan>, chans': seq<Chan>)
    requires |chans| == |chans'| && forall c :: 0 <= c < |chans| ==> chans'[c].key == chans[c].key
    ensures ShapeOk(lk, chans') == ShapeOk(lk, chans)
  {}

  /** One channel `c`, which neither was nor is destroyed, changed its place. */
  predicate MovesOne(s: State, t: State, pl: seq<Place>, q: seq<Place>, c: nat) {
    && |s.chans| == |t.chans| == |pl| == |q| && c < |pl|
    && t.table == s.table
    && (forall d :: 0 <= d < |s.chans| ==> t.chans[d].key == s.chans[d].key)
    && (forall d :: 0 <= d < |pl| && d != c ==> q[d] == pl[d])
    && !q[c].Destroyed?
  }

  lemma TableKeepsOk(s: State, t: State, pl: seq<Place>, q: seq<Place>, c: nat)
    requires Inv(s, pl) && MovesOne(s, t, pl, q, c)
    requires s.cleaner.Some? ==> t.cleaner.Some? && s.cleaner.value.toDelete <= t.cleaner.value.toDelete
    ensures forall k {:trigger TableOk(t, q, k)} :: k in t.table ==> TableOk(t, q, k)
  {
    forall k | k in t.table ensures TableOk(t, q, k) {
      assert TableOk(s, pl, k);
    }
  }

  lemma CleanerKeepsOk(s: State, t: State, pl: seq<Place>, q: seq<Place>, c: nat)
    requires Inv(s, pl) && MovesOne(s, t, pl, q, c) && t.cleaner == s.cleaner && |t.locks| == |s.locks|
    requires !pl[c].Destroyed? && !pl[c].WithCleaner?
    requires forall l :: 0 <= l < |s.locks| && s.locks[l].phase == Cleaning ==> t.locks[l].phase == Cleaning
    ensures t.cleaner.Some? ==> CleanerOk(t, q, t.cleaner.value)
  {
    if t.cleaner.Some? {
      forall k | k in t.cleaner.value.toDelete ensures CleanedOk(t, q, k) {
        assert CleanedOk(s, pl, k);
      }
    }
  }

  /** `Unlock` never sends on a closed or full channel. */
  lemma PutBackIsSafe(s: State, pl: seq<Place>, l: nat)
    requires Inv(s, pl) && IsLock(s, l) && s.locks[l].phase.Releasing?
    ensures ReleasesNext(s, l) && s.locks[l].phase.j < |s.locks[l].keys|
    ensures var c := s.locks[l].chans[s.locks[l].phase.j];
            !s.chans[c].closed && !s.chans[c].token && pl[c] == With(l, s.locks[l].phase.j)
            && s.chans[c].key == s.locks[l].keys[s.locks[l].phase.j]
  {
    assert LockOk(s, pl, l);
    assert HeldOk(s, pl, l, s.locks[l].phase.j);
    assert ChanOk(s, pl, s.locks[l].chans[s.locks[l].phase.j]);
  }

  lemma PutBackKeepsInv(s: State, pl: seq<Place>, l: nat)
    requires Inv(s, pl) && Enabled(s, PutBack(l))
    ensures Inv(Next(s, PutBack(l)), Places(s, PutBack(l), pl))
  {
    PutBackIsSafe(s, pl, l);
    var t, q, c := Next(s, PutBack(l)), Places(s, PutBack(l), pl), s.locks[l].chans[s.locks[l].phase.j];
    forall d | 0 <= d < |t.chans| ensures ChanOk(t, q, d) {
      PutBackChan(s, pl, l, d);
    }
    TableKeepsOk(s, t, pl, q, c);
    forall m | 0 <= m < |t.locks| ensures LockOk(t, q, m) {
      PutBackLock(s, pl, l, m);
    }
    CleanerKeepsOk(s, t, pl, q, c);
  }

  lemma PutBackChan(s: State, pl: seq<Place>, l: nat, d: nat)
    requires Inv(s, pl) && Enabled(s, PutBack(l)) && d < |s.chans|
    ensures var t := Next(s, PutBack(l)); |t.chans| == |s.chans| && ChanOk(t, Places(s, PutBack(l), pl), d)
  {
    PutBackIsSafe(s, pl, l);
    assert ChanOk(s, pl, d);
    assert ChanOk(s, pl, s.locks[l].chans[s.locks[l].phase.j]);
    assert LockOk(s, pl, l);
  }

  lemma PutBackLock(s: State, pl: seq<Place>, l: nat, m: nat)
    requires Inv(s, pl) && Enabled(s, PutBack(l)) && IsLock(s, m)
    ensures var t := Next(s, PutBack(l)); |t.chans| == |s.chans| && LockOk(t, Places(s, PutBack(l), pl), m)
  {
    PutBackIsSafe(s, pl, l);
    var t, q := Next(s, PutBack(l)), Places(s, PutBack(l), pl);
    assert LockOk(s, pl, m);
    ShapeFrame(t.locks[m], s.chans, t.chans);
    forall i | First(t.locks[m]) <= i < |t.locks[m].chans| ensures HeldOk(t, q, m, i) {
      assert HeldOk(s, pl, m, i);
    }
  }

  lemma StartCleanKeepsInv(s: State, pl: seq<Place>, owner: Option<nat>)
    requires Inv(s, pl) && Enabled(s, StartClean(owner))
    ensures Inv(Next(s, StartClean(owner)), pl)
  {
    var t := Next(s, StartClean(owner));
    forall c | 0 <= c < |t.chans| ensures ChanOk(t, pl, c) {
      assert ChanOk(s, pl, c);
    }
    forall k | k in t.table ensures TableOk(t, pl, k) {
      assert TableOk(s, pl, k);
    }
    forall m | 0 <= m < |t.locks| ensures LockOk(t, pl, m) {
      assert LockOk(s, pl, m);
      forall i | First(t.locks[m]) <= i < |t.locks[m].chans| ensures HeldOk(t, pl, m, i) {
        assert HeldOk(s, pl, m, i);
      }
    }
  }

  /** Clean reaches a key of its list: the channel is open, so it is drained or skipped. */
  lemma CleanKeyIsOpen(s: State, pl: seq<Place>, k: string)
    requires Inv(s, pl) && Enabled(s, CleanKey(k))
    ensures !s.chans[s.table[k]].closed && s.chans[s.table[k]].key == k && !pl[s.table[k]].Destroyed?
    ensures s.chans[s.table[k]].token == pl[s.table[k]].InChannel?
  {
    assert TableOk(s, pl, k);
    assert ChanOk(s, pl, s.table[k]);
  }

  lemma CleanKeyKeepsInv(s: State, pl: seq<Place>, k: string)
    requires Inv(s, pl) && Enabled(s, CleanKey(k))
    ensures Inv(Next(s, CleanKey(k)), Places(s, CleanKey(k), pl))
  {
    CleanKeyIsOpen(s, pl, k);
    var t, q, c := Next(s, CleanKey(k)), Places(s, CleanKey(k), pl), s.table[k];
    forall d | 0 <= d < |t.chans| ensures ChanOk(t, q, d) {
      assert ChanOk(s, pl, d);
    }
    TableKeepsOk(s, t, pl, q, c);
    forall m | 0 <= m < |t.locks| ensures LockOk(t, q, m) {
      CleanKeyLock(s, pl, k, m);
    }
    CleanKeyCleaner(s, pl, k);
  }

  lemma CleanKeyCleaner(s: State, pl: seq<Place>, k: string)
    requires Inv(s, pl) && Enabled(s, CleanKey(k))
    ensures var t := Next(s, CleanKey(k));
            |t.chans| == |s.chans| && t.cleaner.Some? && CleanerOk(t, Places(s, CleanKey(k), pl), t.cleaner.value)
  {
    CleanKeyIsOpen(s, pl, k);
    var t, q := Next(s, CleanKey(k)), Places(s, CleanKey(k), pl);
    forall j | j in t.cleaner.value.toDelete ensures CleanedOk(t, q, j) {
      assert CleanedOk(s, pl, j);
    }
  }

  lemma CleanKeyLock(s: State, pl: seq<Place>, k: string, m: nat)
    requires Inv(s, pl) && Enabled(s, CleanKey(k)) && IsLock(s, m)
    ensures var t := Next(s, CleanKey(k)); |t.chans| == |s.chans| && LockOk(t, Places(s, CleanKey(k), pl), m)
  {
    CleanKeyIsOpen(s, pl, k);
    var t, q := Next(s, CleanKey(k)), Places(s, CleanKey(k), pl);
    assert LockOk(s, pl, m);
    ShapeFrame(t.locks[m], s.chans, t.chans);
    forall i | First(t.locks[m]) <= i < |t.locks[m].chans| ensures HeldOk(t, q, m, i) {
      assert HeldOk(s, pl, m, i);
    }
  }

  /** Clean closes an open channel whose token it has taken: no double close. */
  lemma CloseIsSafe(s: State, pl: seq<Place>)
    requires Inv(s, pl) && Enabled(s, CleanClose)
    ensures var k := s.cleaner.value.drained.value;
            !s.chans[s.table[k]].closed && s.chans[s.table[k]].key == k && pl[s.table[k]].WithCleaner?
  {
    assert TableOk(s, pl, s.cleaner.value.drained.value);
    assert ChanOk(s, pl, s.table[s.cleaner.value.drained.value]);
  }

  lemma CleanCloseKeepsInv(s: State, pl: seq<Place>)
    requires Inv(s, pl) && Enabled(s, CleanClose)
    ensures Inv(Next(s, CleanClose), Places(s, CleanClose, pl))
  {
    CloseIsSafe(s, pl);
    var t, q, k := Next(s, CleanClose), Places(s, CleanClose, pl), s.cleaner.value.drained.value;
    forall d | 0 <= d < |t.chans| ensures ChanOk(t, q, d) {
      CloseChan(s, pl, d);
    }
    forall j | j in t.table ensures TableOk(t, q, j) {
      assert TableOk(s, pl, j);
      assert TableOk(s, pl, k);
    }
    forall m | 0 <= m < |t.locks| ensures LockOk(t, q, m) {
      CloseLock(s, pl, m);
    }
    forall j | j in t.cleaner.value.toDelete ensures CleanedOk(t, q, j) {
      assert j != k ==> CleanedOk(s, pl, j);
    }
  }

  lemma CloseChan(s: State, pl: seq<Place>, d: nat)
    requires Inv(s, pl) && Enabled(s, CleanClose) && d < |s.chans|
    ensures var t := Next(s, CleanClose); |t.chans| == |s.chans| && ChanOk(t, Places(s, CleanClose, pl), d)
  {
    CloseIsSafe(s, pl);
    assert ChanOk(s, pl, d);
    assert ChanOk(s, pl, s.table[s.cleaner.value.drained.value]);
  }

  lemma CloseLock(s: State, pl: seq<Place>, m: nat)
    requires Inv(s, pl) && Enabled(s, CleanClose) && IsLock(s, m)
    ensures var t := Next(s, CleanClose); |t.chans| == |s.chans| && LockOk(t, Places(s, CleanClose, pl), m)
  {
    CloseIsSafe(s, pl);
    var t, q := Next(s, CleanClose), Places(s, CleanClose, pl);
    assert LockOk(s, pl, m);
    ShapeFrame(t.locks[m], s.chans, t.chans);
    forall i | First(t.locks[m]) <= i < |t.locks[m].chans| ensures HeldOk(t, q, m, i) {
      assert HeldOk(s, pl, m, i);
    }
  }

  lemma FinishCleanKeepsInv(s: State, pl: seq<Place>)
    requires Inv(s, pl) && Enabled(s, FinishClean)
    ensures Inv(Next(s, FinishClean), pl)
  {
    var t, cl := Next(s, FinishClean), s.cleaner.value;
    forall c | 0 <= c < |t.chans| ensures ChanOk(t, pl, c) {
      assert ChanOk(s, pl, c);
      assert s.chans[c].key in cl.toDelete ==> CleanedOk(s, pl, s.chans[c].key);
    }
    forall k | k in t.table ensures TableOk(t, pl, k) {
      assert TableOk(s, pl, k);
    }
    forall m | 0 <= m < |t.locks| ensures LockOk(t, pl, m) {
      assert LockOk(s, pl, m);
      forall i | First(t.locks[m]) <= i < |t.locks[m].chans| ensures HeldOk(t, pl, m, i) {
        assert HeldOk(s, pl, m, i);
      }
    }
  }

  lemma StepKeepsInv(s: State, pl: seq<Place>, e: Event)
    requires Inv(s, pl) && Enabled(s, e)
    ensures Inv(Next(s, e), Places(s, e, pl))
  {
    match e
    case New(names) => NewKeepsInv(s, pl, names);
    case StartLock(l) =>
      assert LockOk(s, pl, l);
      PhaseKeepsInv(s, pl, l, s.locks[l].(chans := [], phase := Getting));
    case GetChan(l) => GetChanKeepsInv(s, pl, l);
    case Acquire(l) => AcquireKeepsInv(s, pl, l);
    case SeeClosed(l) =>
      assert LockOk(s, pl, l);
      PhaseKeepsInv(s, pl, l, s.locks[l].(phase := Getting));
    case StartUnlock(l) =>
      assert LockOk(s, pl, l);
      PhaseKeepsInv(s, pl, l, s.locks[l].(phase := Releasing(0)));
    case PutBack(l) => PutBackKeepsInv(s, pl, l);
    case StartClean(owner) => StartCleanKeepsInv(s, pl, owner);
    case CleanKey(k) => CleanKeyKeepsInv(s, pl, k);
    case CleanClose => CleanCloseKeepsInv(s, pl);
    case FinishClean => FinishCleanKeepsInv(s, pl);
  }
}
