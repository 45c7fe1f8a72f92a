/**
  The flush of the block cache under concurrency: the snapshot of the cache, the save to the database and the
  clear of the cache are three lock regions, and blocks may be saved, and other flushes run, in between. The
  theorems say exactly which saved blocks are lost.
 */
module InitSyncRaces {
  import opened Options
  import opened InitSyncCache

  /** A flush after its snapshot: still to be persisted, persisted, or ended. */
  datatype Flusher = Taken(blks: map<Root, Block>) | Persisted(blks: map<Root, Block>) | Ended(blks: map<Root, Block>)

  datatype Store = Store(s: State, flushes: seq<Flusher>)

  datatype Event =
    | Put(block: Block)                   // setInitSyncBlock
    | Snapshot                            // getInitSyncBlocks
    | Persist(k: nat)                     // SaveBlocks succeeds
    | Fail(k: nat, part: set<Root>)       // SaveBlocks fails after storing a part; the flush ends
    | Clear(k: nat)                       // clearInitSyncBlocks

  function Start(db: map<Root, Block>): Store {
    Store(State(map[], db), [])
  }

  predicate Enabled(x: Store, e: Event) {
    match e
    case Put(_) => true
    case Snapshot => true
    case Persist(k) => k < |x.flushes| && x.flushes[k].Taken?
    case Fail(k, _) => k < |x.flushes| && x.flushes[k].Taken?
    case Clear(k) => k < |x.flushes| && x.flushes[k].Persisted?
  }

  function Next(x: Store, e: Event): Store
    requires Enabled(x, e)
  {
    match e
    case Put(b) => x.(s := x.s.(cache := x.s.cache[b.root := b]))
    case Snapshot => x.(flushes := x.flushes + [Taken(x.s.cache)])
    case Persist(k) =>
      Store(x.s.(db := x.s.db + x.flushes[k].blks), x.flushes[k := Persisted(x.flushes[k].blks)])
    case Fail(k, part) =>
      var stored := map r | r in x.flushes[k].blks && r in part :: x.flushes[k].blks[r];
      Store(x.s.(db := x.s.db + stored), x.flushes[k := Ended(x.flushes[k].blks)])
    case Clear(k) => Store(x.s.(cache := map[]), x.flushes[k := Ended(x.flushes[k].blks)])
  }

  function Run(db: map<Root, Block>, events: seq<Event>): Option<Store> {
    if events == [] then Some(Start(db))
    else
      match Run(db, events[..|events| - 1])
      case None => None
      case Some(x) => if Enabled(x, events[|events| - 1]) then Some(Next(x, events[|events| - 1])) else None
  }

  /** The block is found in neither the cache nor the database. */
  predicate Missing(x: Store, r: Root) {
    r !in x.s.cache && r !in x.s.db
  }

  // The history of a run, event by event.

  predicate PutsAt(events: seq<Event>, j: int, r: Root)
    requires 0 <= j < |events|
  {
    events[j].Put? && events[j].block.root == r
  }

  predicate ClearsAt(events: seq<Event>, j: int)
    requires 0 <= j < |events|
  {
    events[j].Clear?
  }

  /** No cache clear among the events from `lo` on and before `hi`. */
  predicate NoClear(events: seq<Event>, lo: nat, hi: nat)
    requires hi <= |events|
  {
    forall i {:trigger ClearsAt(events, i)} :: lo <= i < hi ==> !ClearsAt(events, i)
  }

  /** After the first `n` events, `r` has been put since the last clear. */
  predicate FreshPut(events: seq<Event>, n: nat, r: Root)
    requires n <= |events|
  {
    exists j {:trigger PutsAt(events, j, r)} :: 0 <= j < n && PutsAt(events, j, r) && NoClear(events, j + 1, n)
  }

  /** The cache holds exactly what was put since the last clear. */
  lemma {:induction false} CacheIsFreshPuts(db: map<Root, Block>, events: seq<Event>, n: nat, r: Root)
    requires n <= |events| && Run(db, events[..n]).Some?
    ensures r in Run(db, events[..n]).value.s.cache <==> FreshPut(events, n, r)
  {
    if n > 0 {
      assert events[..n][..n - 1] == events[..n - 1];
      CacheIsFreshPuts(db, events, n - 1, r);
      FreshPutStep(events, n, r);
    }
  }

  lemma FreshPutStep(events: seq<Event>, n: nat, r: Root)
    requires 0 < n <= |events|
    ensures FreshPut(events, n, r) <==>
            PutsAt(events, n - 1, r) || (FreshPut(events, n - 1, r) && !ClearsAt(events, n - 1))
  {
    if FreshPut(events, n - 1, r) && !ClearsAt(events, n - 1) {
      var j :| 0 <= j < n - 1 && PutsAt(events, j, r) && NoClear(events, j + 1, n - 1);
      assert NoClear(events, j + 1, n);
    }
    if PutsAt(events, n - 1, r) {
      assert NoClear(events, n, n);
    }
    if FreshPut(events, n, r) && !PutsAt(events, n - 1, r) {
      var j :| 0 <= j < n && PutsAt(events, j, r) && NoClear(events, j + 1, n);
      assert j < n - 1 && NoClear(events, j + 1, n - 1);
    }
  }

  /** How many flushes have started. */
  function Snapshots(events: seq<Event>): nat {
    if events == [] then 0
    else Snapshots(events[..|events| - 1]) + if events[|events| - 1].Snapshot? then 1 else 0
  }

  /** Event `p` is the snapshot of flush `k`. */
  predicate TakesAt(events: seq<Event>, p: int, k: nat)
    requires 0 <= p < |events|
  {
    events[p].Snapshot? && Snapshots(events[..p]) == k
  }

  /** Flush `k` took `r` into its snapshot, among the first `n` events. */
  predicate Took(events: seq<Event>, n: nat, k: nat, r: Root)
    requires n <= |events|
  {
    exists p {:trigger TakesAt(events, p, k)} :: 0 <= p < n && TakesAt(events, p, k) && FreshPut(events, p, r)
  }

  /** Event `q` brings `r` into the database. */
  predicate StoresAt(events: seq<Event>, q: int, r: Root)
    requires 0 <= q < |events|
  {
    || (events[q].Persist? && Took(events, q, events[q].k, r))
    || (events[q].Fail? && r in events[q].part && Took(events, q, events[q].k, r))
  }

  predicate StoredBy(events: seq<Event>, n: nat, r: Root)
    requires n <= |events|
  {
    exists q {:trigger StoresAt(events, q, r)} :: 0 <= q < n && StoresAt(events, q, r)
  }

  lemma {:induction false} FlushCount(db: map<Root, Block>, events: seq<Event>, n: nat)
    requires n <= |events| && Run(db, events[..n]).Some?
    ensures |Run(db, events[..n]).value.flushes| == Snapshots(events[..n])
  {
    if n > 0 {
      assert events[..n][..n - 1] == events[..n - 1];
      FlushCount(db, events, n - 1);
    }
  }

  lemma TookStep(events: seq<Event>, n: nat, k: nat, r: Root)
    requires 0 < n <= |events|
    ensures Took(events, n, k, r) <==>
            Took(events, n - 1, k, r) || (TakesAt(events, n - 1, k) && FreshPut(events, n - 1, r))
  {
    if TakesAt(events, n - 1, k) && FreshPut(events, n - 1, r) {
      assert Took(events, n, k, r);
    }
  }

  /** A flush holds exactly what was fresh at its snapshot. */
  lemma {:induction false} SnapshotHolds(db: map<Root, Block>, events: seq<Event>, n: nat, k: nat, r: Root)
    requires n <= |events| && Run(db, events[..n]).Some?
    ensures Took(events, n, k, r) <==>
            var x := Run(db, events[..n]).value; k < |x.flushes| && r in x.flushes[k].blks
  {
    if n > 0 {
      assert events[..n][..n - 1] == events[..n - 1];
      SnapshotHolds(db, events, n - 1, k, r);
      FlushCount(db, events, n - 1);
      CacheIsFreshPuts(db, events, n - 1, r);
      TookStep(events, n, k, r);
    }
  }

  lemma StoredByStep(events: seq<Event>, n: nat, r: Root)
    requires 0 < n <= |events|
    ensures StoredBy(events, n, r) <==> StoredBy(events, n - 1, r) || StoresAt(events, n - 1, r)
  {
    if StoresAt(events, n - 1, r) {
      assert StoredBy(events, n, r);
    }
  }

  /** The database holds exactly what it had and what flushes stored. */
  lemma {:induction false} DbIsStored(db: map<Root, Block>, events: seq<Event>, n: nat, r: Root)
    requires n <= |events| && Run(db, events[..n]).Some?
    ensures r in Run(db, events[..n]).value.s.db <==> r in db || StoredBy(events, n, r)
  {
    if n > 0 {
      assert events[..n][..n - 1] == events[..n - 1];
      DbIsStored(db, events, n - 1, r);
      StoredByStep(events, n, r);
      var e := events[n - 1];
      if e.Persist? || e.Fail? {
        SnapshotHolds(db, events, n - 1, e.k, r);
      }
    }
  }

  /** What a flush that may clear the cache took is in the database. */
  lemma {:induction false} PersistedIsStored(db: map<Root, Block>, events: seq<Event>, n: nat, k: nat)
    requires n <= |events| && Run(db, events[..n]).Some?
    requires var x := Run(db, events[..n]).value; k < |x.flushes| && x.flushes[k].Persisted?
    ensures var x := Run(db, events[..n]).value; x.flushes[k].blks.Keys <= x.s.db.Keys
  {
    assert n > 0;
    assert events[..n][..n - 1] == events[..n - 1];
    var before := Run(db, events[..n - 1]).value;
    if k < |before.flushes| && before.flushes[k].Persisted? {
      PersistedIsStored(db, events, n - 1, k);
    }
  }

  /** Some put of `r` lies between the events `lo` and `hi`, with no clear from it to `hi`. */
  predicate PutBetween(events: seq<Event>, lo: nat, hi: nat, r: Root)
    requires hi <= |events|
  {
    exists j {:trigger PutsAt(events, j, r)} :: lo < j < hi && PutsAt(events, j, r) && NoClear(events, j + 1, hi)
  }

  /**
    Event `i` loses `r`: it is the clear of a flush, `r` was put between the snapshot of that flush and this
    clear, and nothing before had brought it into the database.
   */
  predicate LosesAt(db: map<Root, Block>, events: seq<Event>, i: int, r: Root)
    requires 0 <= i < |events|
  {
    && events[i].Clear?
    && (exists p {:trigger TakesAt(events, p, events[i].k)} ::
          0 <= p < i && TakesAt(events, p, events[i].k) && PutBetween(events, p, i, r))
    && r !in db && !StoredBy(events, i, r)
  }

  lemma {:induction false} TakenAtSome(db: map<Root, Block>, events: seq<Event>, n: nat, k: nat) returns (p: nat)
    requires n <= |events| && Run(db, events[..n]).Some? && k < |Run(db, events[..n]).value.flushes|
    ensures p < n && TakesAt(events, p, k)
  {
    assert n > 0 && events[..n][..n - 1] == events[..n - 1];
    if k < |Run(db, events[..n - 1]).value.flushes| {
      p := TakenAtSome(db, events, n - 1, k);
    } else {
      FlushCount(db, events, n - 1);
      p := n - 1;
    }
  }

  /** At a clear, what is in the cache and not in the database was put after the snapshot of this flush. */
  lemma ClearedLate(db: map<Root, Block>, events: seq<Event>, i: nat, r: Root)
    requires i < |events| && Run(db, events[..i + 1]).Some? && events[i].Clear?
    requires FreshPut(events, i, r) && r !in db && !StoredBy(events, i, r)
    ensures LosesAt(db, events, i, r)
  {
    assert events[..i + 1][..i] == events[..i];
    var k := events[i].k;
    var p := TakenAtSome(db, events, i, k);
    PersistedIsStored(db, events, i, k);
    DbIsStored(db, events, i, r);
    SnapshotHolds(db, events, i, k, r);
    var j :| 0 <= j < i && PutsAt(events, j, r) && NoClear(events, j + 1, i);
    EarlyPutIsTaken(events, j, p, i, k, r);
    assert j != p;
  }

  /** What was put before a snapshot and not cleared until later is in the snapshot. */
  lemma EarlyPutIsTaken(events: seq<Event>, j: nat, p: nat, i: nat, k: nat, r: Root)
    requires j < i <= |events| && p < i && PutsAt(events, j, r) && NoClear(events, j + 1, i) && TakesAt(events, p, k)
    ensures j < p ==> Took(events, i, k, r)
  {
    if j < p {
      assert NoClear(events, j + 1, p);
      assert FreshPut(events, p, r);
    }
  }

  /** A step makes `r` missing exactly when it loses it in the sense of the history. */
  lemma StepLosesIff(db: map<Root, Block>, events: seq<Event>, i: nat, r: Root)
    requires i < |events| && Run(db, events[..i + 1]).Some?
    ensures Run(db, events[..i]).Some?
    ensures !Missing(Run(db, events[..i]).value, r) && Missing(Run(db, events[..i + 1]).value, r)
            <==> LosesAt(db, events, i, r)
  {
    assert events[..i + 1][..i] == events[..i];
    CacheIsFreshPuts(db, events, i, r);
    DbIsStored(db, events, i, r);
    if events[i].Clear? && FreshPut(events, i, r) && r !in db && !StoredBy(events, i, r) {
      ClearedLate(db, events, i, r);
    }
    if LosesAt(db, events, i, r) {
      assert FreshPut(events, i, r);
    }
  }

  /** Nothing from event `lo` on puts `r` again or stores it. */
  predicate NotRecovered(events: seq<Event>, lo: nat, hi: nat, r: Root)
    requires hi <= |events|
  {
    forall i {:trigger StoresAt(events, i, r)} {:trigger PutsAt(events, i, r)} ::
      lo <= i < hi ==> !StoresAt(events, i, r) && !PutsAt(events, i, r)
  }

  predicate Saved(db: map<Root, Block>, events: seq<Event>, n: nat, r: Root)
    requires n <= |events|
  {
    r in db || exists j {:trigger PutsAt(events, j, r)} :: 0 <= j < n && PutsAt(events, j, r)
  }

  predicate LostBy(db: map<Root, Block>, events: seq<Event>, n: nat, r: Root)
    requires n <= |events|
  {
    exists i {:trigger LosesAt(db, events, i, r)} ::
      0 <= i < n && LosesAt(db, events, i, r) && NotRecovered(events, i + 1, n, r)
  }

  /** One event: a missing block stays missing unless it is put or stored. */
  lemma MissingStep(db: map<Root, Block>, events: seq<Event>, i: nat, r: Root)
    requires i < |events| && Run(db, events[..i + 1]).Some?
    ensures Run(db, events[..i]).Some?
    ensures Missing(Run(db, events[..i]).value, r) ==>
            (Missing(Run(db, events[..i + 1]).value, r) <==> !PutsAt(events, i, r) && !StoresAt(events, i, r))
  {
    assert events[..i + 1][..i] == events[..i];
    var e := events[i];
    if e.Persist? || e.Fail? {
      SnapshotHolds(db, events, i, e.k, r);
    }
  }

  /**
    Over every interleaving of saves and any number of flushes: a saved block is lost exactly when a flush
    cleared the cache after the block had been put behind that flush's snapshot and before anything stored
    it, and it has been neither put nor stored since.
   */
  lemma {:induction false} LostExactlyWhen(db: map<Root, Block>, events: seq<Event>, n: nat, r: Root)
    requires n <= |events| && Run(db, events[..n]).Some?
    ensures Saved(db, events, n, r) && Missing(Run(db, events[..n]).value, r) <==> LostBy(db, events, n, r)
  {
    if n > 0 {
      var i := n - 1;
      assert events[..n][..i] == events[..i];
      LostExactlyWhen(db, events, i, r);
      StepLosesIff(db, events, i, r);
      MissingStep(db, events, i, r);
      SavedStep(db, events, n, r);
      LostByStep(db, events, n, r);
      NotYetSaved(db, events, i, r);
    } else {
      assert Run(db, events[..n]) == Some(Start(db));
    }
  }

  lemma SavedStep(db: map<Root, Block>, events: seq<Event>, n: nat, r: Root)
    requires 0 < n <= |events|
    ensures Saved(db, events, n, r) <==> Saved(db, events, n - 1, r) || PutsAt(events, n - 1, r)
  {
    if PutsAt(events, n - 1, r) {
      assert Saved(db, events, n, r);
    }
  }

  lemma LostByStep(db: map<Root, Block>, events: seq<Event>, n: nat, r: Root)
    requires 0 < n <= |events|
    ensures LostBy(db, events, n, r) <==>
            LosesAt(db, events, n - 1, r)
            || (LostBy(db, events, n - 1, r) && !StoresAt(events, n - 1, r) && !PutsAt(events, n - 1, r))
  {
    if LosesAt(db, events, n - 1, r) {
      assert NotRecovered(events, n, n, r);
    }
    if LostBy(db, events, n - 1, r) && !StoresAt(events, n - 1, r) && !PutsAt(events, n - 1, r) {
      var i :| 0 <= i < n - 1 && LosesAt(db, events, i, r) && NotRecovered(events, i + 1, n - 1, r);
      assert NotRecovered(events, i + 1, n, r);
    }
    if LostBy(db, events, n, r) && !LosesAt(db, events, n - 1, r) {
      var i :| 0 <= i < n && LosesAt(db, events, i, r) && NotRecovered(events, i + 1, n, r);
      assert NotRecovered(events, i + 1, n - 1, r);
    }
  }

  /** What was never saved is not in the cache either. */
  lemma NotYetSaved(db: map<Root, Block>, events: seq<Event>, n: nat, r: Root)
    requires n <= |events| && Run(db, events[..n]).Some?
    ensures Saved(db, events, n, r) || Missing(Run(db, events[..n]).value, r)
  {
    CacheIsFreshPuts(db, events, n, r);
    DbIsStored(db, events, n, r);
    if StoredBy(events, n, r) {
      var q :| 0 <= q < n && StoresAt(events, q, r);
      var p :| 0 <= p < q && TakesAt(events, p, events[q].k) && FreshPut(events, p, r);
    }
  }

  /** Between the snapshot and the clear of some flush, `r` is put. */
  predicate PutDuringFlush(events: seq<Event>, i: int, r: Root)
    requires 0 <= i < |events|
  {
    && events[i].Clear?
    && exists p, j {:trigger TakesAt(events, p, events[i].k), PutsAt(events, j, r)} ::
         0 <= p < j < i && TakesAt(events, p, events[i].k) && PutsAt(events, j, r)
  }

  lemma LossNeedsLatePut(db: map<Root, Block>, events: seq<Event>, i: nat, r: Root)
    requires i < |events|
    ensures LosesAt(db, events, i, r) ==> PutDuringFlush(events, i, r)
  {
    if LosesAt(db, events, i, r) {
      var p :| 0 <= p < i && TakesAt(events, p, events[i].k) && PutBetween(events, p, i, r);
      var j :| p < j < i && PutsAt(events, j, r);
    }
  }

  /** Flushes without a save between their snapshot and their clear lose nothing. */
  lemma UndisturbedFlushesLoseNothing(db: map<Root, Block>, events: seq<Event>, r: Root)
    requires Run(db, events).Some?
    requires forall i {:trigger PutDuringFlush(events, i, r)} :: 0 <= i < |events| ==> !PutDuringFlush(events, i, r)
    ensures Saved(db, events, |events|, r) ==> !Missing(Run(db, events).value, r)
  {
    var n := |events|;
    assert events[..n] == events;
    LostExactlyWhen(db, events, n, r);
    forall i: nat | i < n ensures !LosesAt(db, events, i, r) {
      LossNeedsLatePut(db, events, i, r);
    }
  }

  /** A run that loses a block: it is saved between the snapshot of a flush and its clear. */
  lemma FlushRaceLosesABlock(b: Block)
    ensures var events := [Snapshot, Put(b), Persist(0), Clear(0)];
            Run(map[], events).Some? && Missing(Run(map[], events).value, b.root)
  {
    var events: seq<Event> := [Snapshot, Put(b), Persist(0), Clear(0)];
    assert events[..3][..2] == events[..2] && events[..2][..1] == events[..1] && events[..1][..0] == [];
    var x1 := Next(Start(map[]), Snapshot);
    assert Run(map[], events[..1]) == Some(x1);
    var x2 := Next(x1, Put(b));
    assert Run(map[], events[..2]) == Some(x2);
    var x3 := Next(x2, Persist(0));
    assert Run(map[], events[..3]) == Some(x3);
    assert Run(map[], events) == Some(Next(x3, Clear(0)));
  }
}
