/**
  Blob reception against block import: every interleaving of `ReceiveBlob` calls (save, then notify) with
  one waiter per root in `isDataAvailable` (check storage, then wait on the notifier channel). Stored blobs
  are not removed. Each step is one storage operation, one lock region or one channel operation.
 */
module BlobAvailability {
  import opened Options
  import opened BlobNotifier

  /** A notifier channel: everything ever sent on it, how much was read, and the indices it was handed out for. */
  datatype Channel = Channel(root: Root, history: seq<nat>, read: nat, granted: set<nat>)

  /** A ReceiveBlob call after its Save. */
  datatype SenderPhase = Saved | Sending(c: nat) | Done

  datatype Sender = Sender(root: Root, idx: nat, phase: SenderPhase)

  /** An isDataAvailable call; `need` are the indices with a commitment. */
  datatype Waiter =
    | Checked(need: set<nat>, missing: set<nat>)
    | Waiting(need: set<nat>, missing: set<nat>, c: nat)
    | Deleting(need: set<nat>)
    | Returned(need: set<nat>, ok: bool)

  datatype State = State(
    stored: set<(Root, nat)>,
    entries: map<Root, Entry>,
    chans: seq<Channel>,
    senders: seq<Sender>,
    waiters: map<Root, Waiter>)

  const INITIAL: State := State({}, map[], [], [], map[])

  datatype Event =
    | Save(root: Root, idx: nat)
    | Notify(k: nat)                                    // lock region of notifyIndex
    | Send(k: nat)                                      // c <- idx
    | Check(root: Root, expected: seq<Commitment>)      // missingIndices
    | ForRoot(root: Root)
    | Receive(root: Root)
    | Delete(root: Root)
    | Abort(root: Root)                                 // ctx.Done()

  function EntryOf(s: State, r: Root): Entry {
    if r in s.entries then s.entries[r] else BLANK
  }

  predicate IsWaiting(s: State, r: Root) {
    r in s.waiters && s.waiters[r].Waiting? && s.waiters[r].c < |s.chans|
  }

  predicate Enabled(s: State, e: Event) {
    match e
    case Save(_, _) => true
    case Notify(k) => k < |s.senders| && s.senders[k].phase == Saved
    case Send(k) => k < |s.senders| && s.senders[k].phase.Sending? && HasRoom(s, s.senders[k].phase.c)
    case Check(r, _) => r !in s.waiters || s.waiters[r].Returned?
    case ForRoot(r) => r in s.waiters && s.waiters[r].Checked?
    case Receive(r) => IsWaiting(s, r) && HasUnread(s.chans[s.waiters[r].c])
    case Delete(r) => r in s.waiters && s.waiters[r].Deleting?
    case Abort(r) => r in s.waiters && s.waiters[r].Waiting?
  }

  predicate HasUnread(ch: Channel) {
    ch.read < |ch.history|
  }

  /** The buffer of the channel is not full. */
  predicate HasRoom(s: State, c: nat) {
    c < |s.chans| && |s.chans[c].history| - s.chans[c].read < MAX_BLOBS_PER_BLOCK
  }

  function Next(s: State, e: Event): State
    requires Enabled(s, e)
  {
    match e
    case Save(r, idx) => s.(stored := s.stored + {(r, idx)}, senders := s.senders + [Sender(r, idx, Saved)])
    case Notify(k) =>
      var x := s.senders[k];
      AfterNotify(s, k, NotifyEntry(EntryOf(s, x.root), x.idx, |s.chans|))
    case Send(k) => AfterSend(s, k, s.senders[k].phase.c)
    case Check(r, expected) => s.(waiters := s.waiters[r := AfterCheck(s, r, expected)])
    case ForRoot(r) => AfterForRoot(s, r, ForRootEntry(EntryOf(s, r), |s.chans|))
    case Receive(r) => AfterReceive(s, r, s.waiters[r].c)
    case Delete(r) => s.(entries := s.entries - {r}, waiters := s.waiters[r := Returned(s.waiters[r].need, true)])
    case Abort(r) => s.(waiters := s.waiters[r := Returned(s.waiters[r].need, false)])
  }

  /** The channels after one was handed out by the map: new if its identity is unused. */
  function Made(chans: seq<Channel>, c: nat, r: Root): seq<Channel> {
    if c == |chans| then chans + [Channel(r, [], 0, {})] else chans
  }

  function AfterNotify(s: State, k: nat, outcome: (Entry, Option<nat>)): State
    requires k < |s.senders|
  {
    var x := s.senders[k];
    if outcome.1.None? then s.(senders := s.senders[k := x.(phase := Done)])
    else
      var c := outcome.1.value;
      var chans := Made(s.chans, c, x.root);
      s.(entries := s.entries[x.root := outcome.0],
         chans := if c < |chans| then chans[c := chans[c].(granted := chans[c].granted + {x.idx})] else chans,
         senders := s.senders[k := x.(phase := Sending(c))])
  }

  function AfterSend(s: State, k: nat, c: nat): State
    requires k < |s.senders| && c < |s.chans|
  {
    s.(chans := s.chans[c := s.chans[c].(history := s.chans[c].history + [s.senders[k].idx])],
       senders := s.senders[k := s.senders[k].(phase := Done)])
  }

  /** `missingIndices` and the early returns around it. */
  function AfterCheck(s: State, r: Root, expected: seq<Commitment>): Waiter {
    var need := Needed(expected);
    if |expected| > MAX_BLOBS_PER_BLOCK then Returned(need, false)
    else
      var missing := Unstored(s, r, need);
      if missing == {} then Returned(need, true) else Checked(need, missing)
  }

  function Unstored(s: State, r: Root, need: set<nat>): set<nat> {
    set i | i in need && (r, i) !in s.stored
  }

  function AfterForRoot(s: State, r: Root, e: Entry): State
    requires e.notifier.Some? && r in s.waiters && s.waiters[r].Checked?
  {
    s.(entries := s.entries[r := e],
       chans := Made(s.chans, e.notifier.value, r),
       waiters := s.waiters[r := Waiting(s.waiters[r].need, s.waiters[r].missing, e.notifier.value)])
  }

  function AfterReceive(s: State, r: Root, c: nat): State
    requires IsWaiting(s, r) && c == s.waiters[r].c && HasUnread(s.chans[c])
  {
    var ch := s.chans[c];
    var missing := s.waiters[r].missing - {ch.history[ch.read]};
    s.(chans := s.chans[c := ch.(read := ch.read + 1)],
       waiters := s.waiters[r := if missing == {} then Deleting(s.waiters[r].need)
                                 else Waiting(s.waiters[r].need, missing, c)])
  }

  // The invariant, one predicate per channel, sender, pair of senders, root and waiter.

  predicate Distinct(h: seq<nat>) {
    forall i, j {:trigger h[i], h[j]} :: 0 <= i < j < |h| ==> h[i] != h[j]
  }

  predicate Legit(s: State, r: Root, i: nat) {
    i < MAX_BLOBS_PER_BLOCK && (r, i) in s.stored
  }

  /** A channel carries each index at most once over its life, and only persisted ones. */
  predicate ChanOk(s: State, c: nat)
    requires c < |s.chans|
  {
    var ch := s.chans[c];
    && ch.read <= |ch.history|
    && Distinct(ch.history)
    && (forall i :: i in ch.history ==> i in ch.granted)
    && (forall i :: i in ch.granted ==> Legit(s, ch.root, i))
  }

  predicate SenderOk(s: State, k: nat)
    requires k < |s.senders|
  {
    var x := s.senders[k];
    && (x.root, x.idx) in s.stored
    && (x.phase.Sending? ==>
          && x.phase.c < |s.chans|
          && s.chans[x.phase.c].root == x.root
          && x.idx in s.chans[x.phase.c].granted
          && x.idx !in s.chans[x.phase.c].history)
  }

  predicate PairOk(s: State, j: nat, k: nat)
    requires j < |s.senders| && k < |s.senders|
  {
    var x, y := s.senders[j], s.senders[k];
    j != k && x.phase.Sending? && x.phase == y.phase ==> x.idx != y.idx
  }

  /** The notifier in use was handed out for exactly the seen indices. */
  predicate RootOk(s: State, r: Root) {
    var e := EntryOf(s, r);
    if e.notifier.None? then e.seen == {}
    else
      var c := e.notifier.value;
      c < |s.chans| && s.chans[c].root == r && s.chans[c].granted == e.seen
  }

  predicate SavedAt(s: State, k: nat, r: Root, i: nat) {
    k < |s.senders| && s.senders[k] == Sender(r, i, Saved)
  }

  predicate SendingAt(s: State, k: nat, r: Root, i: nat, c: nat) {
    k < |s.senders| && s.senders[k] == Sender(r, i, Sending(c))
  }

  predicate Unread(s: State, c: nat, i: nat) {
    c < |s.chans| && s.chans[c].read <= |s.chans[c].history| && i in s.chans[c].history[s.chans[c].read..]
  }

  /** The notification of `i` is still to come: a sender has saved it, or is about to send it, or it is queued. */
  ghost predicate InTransit(s: State, r: Root, i: nat) {
    var e := EntryOf(s, r);
    if i !in e.seen then exists k: nat :: SavedAt(s, k, r, i)
    else
      && e.notifier.Some?
      && (Unread(s, e.notifier.value, i) || exists k: nat :: SendingAt(s, k, r, i, e.notifier.value))
  }

  ghost predicate AwaitsRightly(s: State, r: Root, need: set<nat>, missing: set<nat>) {
    && missing <= need
    && (forall i :: i in need ==> i < MAX_BLOBS_PER_BLOCK)
    && (forall i {:trigger (r, i)} :: i in need && i !in missing ==> (r, i) in s.stored)
    && (forall i {:trigger InTransit(s, r, i)} :: i in missing && (r, i) in s.stored ==> InTransit(s, r, i))
  }

  predicate AllStored(s: State, r: Root, need: set<nat>) {
    forall i {:trigger (r, i)} :: i in need ==> (r, i) in s.stored
  }

  ghost predicate WaiterOk(s: State, r: Root)
    requires r in s.waiters
  {
    match s.waiters[r]
    case Checked(need, missing) => AwaitsRightly(s, r, need, missing) && missing != {}
    case Waiting(need, missing, c) =>
      AwaitsRightly(s, r, need, missing) && missing != {} && EntryOf(s, r).notifier == Some(c)
    case Deleting(need) => AllStored(s, r, need)
    case Returned(need, ok) => ok ==> AllStored(s, r, need)
  }

  ghost predicate Inv(s: State) {
    && (forall c {:trigger ChanOk(s, c)} :: 0 <= c < |s.chans| ==> ChanOk(s, c))
    && (forall k {:trigger SenderOk(s, k)} :: 0 <= k < |s.senders| ==> SenderOk(s, k))
    && (forall j, k {:trigger PairOk(s, j, k)} :: 0 <= j < |s.senders| && 0 <= k < |s.senders| ==> PairOk(s, j, k))
    && (forall r {:trigger RootOk(s, r)} :: RootOk(s, r))
    && (forall r {:trigger WaiterOk(s, r)} :: r in s.waiters ==> WaiterOk(s, r))
  }

  /** A seen index has been persisted. */
  lemma SeenIsStored(s: State, r: Root, i: nat)
    requires Inv(s) && i in EntryOf(s, r).seen
    ensures Legit(s, r, i)
  {
    assert RootOk(s, r);
    assert ChanOk(s, EntryOf(s, r).notifier.value);
  }

  /** Nothing about this root's notifications went away. */
  ghost predicate KeepsTransit(s: State, t: State, r: Root, i: nat) {
    && EntryOf(t, r) == EntryOf(s, r)
    && (forall k: nat :: SavedAt(s, k, r, i) ==> SavedAt(t, k, r, i))
    && (EntryOf(s, r).notifier.Some? ==>
          var c := EntryOf(s, r).notifier.value;
          && (Unread(s, c, i) ==> Unread(t, c, i))
          && (forall k: nat :: SendingAt(s, k, r, i, c) ==> SendingAt(t, k, r, i, c) || Unread(t, c, i)))
  }

  lemma TransitFrame(s: State, t: State, r: Root, i: nat)
    requires InTransit(s, r, i) && KeepsTransit(s, t, r, i)
    ensures InTransit(t, r, i)
  {}

  /** A waiter untouched by a step that stores nothing stays right. */
  lemma WaiterFrame(s: State, t: State, r: Root)
    requires Inv(s) && r in s.waiters && r in t.waiters && t.waiters[r] == s.waiters[r] && t.stored == s.stored
    requires forall i: nat {:trigger InTransit(s, r, i)} ::
               i < MAX_BLOBS_PER_BLOCK && InTransit(s, r, i) ==> InTransit(t, r, i)
    requires EntryOf(t, r).notifier == EntryOf(s, r).notifier || !s.waiters[r].Waiting?
    ensures WaiterOk(t, r)
  {
    assert WaiterOk(s, r);
    match s.waiters[r]
    case Checked(need, missing) => AwaitsFrame(s, t, r, need, missing);
    case Waiting(need, missing, _) => AwaitsFrame(s, t, r, need, missing);
    case _ =>
  }

  lemma AwaitsFrame(s: State, t: State, r: Root, need: set<nat>, missing: set<nat>)
    requires AwaitsRightly(s, r, need, missing) && t.stored == s.stored
    requires forall i: nat {:trigger InTransit(s, r, i)} ::
               i < MAX_BLOBS_PER_BLOCK && InTransit(s, r, i) ==> InTransit(t, r, i)
    ensures AwaitsRightly(t, r, need, missing)
  {
    forall i | i in missing && (r, i) in t.stored ensures InTransit(t, r, i) {
      assert InTransit(s, r, i);
    }
  }

  // Save

  lemma SaveTransit(s: State, r0: Root, idx: nat, r: Root, i: nat)
    requires Inv(s)
    ensures (r, i) in s.stored && InTransit(s, r, i) ==> InTransit(Next(s, Save(r0, idx)), r, i)
    ensures (r, i) !in s.stored && (r, i) == (r0, idx) ==> InTransit(Next(s, Save(r0, idx)), r, i)
  {
    var t := Next(s, Save(r0, idx));
    if (r, i) !in s.stored && (r, i) == (r0, idx) {
      if i in EntryOf(s, r).seen {
        SeenIsStored(s, r, i);
      }
      assert SavedAt(t, |s.senders|, r, i);
    } else if InTransit(s, r, i) {
      TransitFrame(s, t, r, i);
    }
  }

  lemma SaveAwaits(s: State, r0: Root, idx: nat, r: Root, need: set<nat>, missing: set<nat>)
    requires Inv(s) && AwaitsRightly(s, r, need, missing)
    ensures AwaitsRightly(Next(s, Save(r0, idx)), r, need, missing)
  {
    var t := Next(s, Save(r0, idx));
    forall i | i in missing && (r, i) in t.stored ensures InTransit(t, r, i) {
      assert (r, i) in s.stored ==> InTransit(s, r, i);
      SaveTransit(s, r0, idx, r, i);
    }
  }

  lemma SaveKeepsInv(s: State, r0: Root, idx: nat)
    requires Inv(s)
    ensures Inv(Next(s, Save(r0, idx)))
  {
    var t := Next(s, Save(r0, idx));
    forall c | 0 <= c < |t.chans| ensures ChanOk(t, c) {
      assert ChanOk(s, c);
    }
    forall k | 0 <= k < |t.senders| ensures SenderOk(t, k) {
      assert k < |s.senders| ==> SenderOk(s, k);
    }
    forall j, k | 0 <= j < |t.senders| && 0 <= k < |t.senders| ensures PairOk(t, j, k) {
      assert j < |s.senders| && k < |s.senders| ==> PairOk(s, j, k);
    }
    forall r ensures RootOk(t, r) {
      assert RootOk(s, r);
    }
    forall r | r in t.waiters ensures WaiterOk(t, r) {
      assert WaiterOk(s, r);
      match s.waiters[r]
      case Checked(need, missing) => SaveAwaits(s, r0, idx, r, need, missing);
      case Waiting(need, missing, _) => SaveAwaits(s, r0, idx, r, need, missing);
      case _ =>
    }
  }

  // Notify

  lemma NotifyTransit(s: State, k: nat, r: Root, i: nat)
    requires Inv(s) && Enabled(s, Notify(k)) && i < MAX_BLOBS_PER_BLOCK && InTransit(s, r, i)
    ensures InTransit(Next(s, Notify(k)), r, i)
  {
    var t, x := Next(s, Notify(k)), s.senders[k];
    assert RootOk(s, x.root) && RootOk(s, r);
    var outcome := NotifyEntry(EntryOf(s, x.root), x.idx, |s.chans|);
    if (r, i) == (x.root, x.idx) && i !in EntryOf(s, r).seen {
      assert SendingAt(t, k, r, i, outcome.1.value);
    } else if i !in EntryOf(s, r).seen {
      var w: nat :| SavedAt(s, w, r, i);
      assert SavedAt(t, w, r, i);
    } else {
      NotifySeenTransit(s, k, r, i);
    }
  }

  lemma NotifySeenTransit(s: State, k: nat, r: Root, i: nat)
    requires Inv(s) && Enabled(s, Notify(k)) && i in EntryOf(s, r).seen && InTransit(s, r, i)
    ensures InTransit(Next(s, Notify(k)), r, i)
  {
    var t, x := Next(s, Notify(k)), s.senders[k];
    var c := EntryOf(s, r).notifier.value;
    assert RootOk(s, r);
    if Unread(s, c, i) {
      assert Unread(t, c, i);
    } else {
      var w: nat :| SendingAt(s, w, r, i, c);
      assert SendingAt(t, w, r, i, c);
    }
  }

  lemma NotifyKeepsItems(s: State, k: nat)
    requires Inv(s) && Enabled(s, Notify(k))
    ensures var t := Next(s, Notify(k));
            && (forall c {:trigger ChanOk(t, c)} :: 0 <= c < |t.chans| ==> ChanOk(t, c))
            && (forall r {:trigger RootOk(t, r)} :: RootOk(t, r))
  {
    var t, x := Next(s, Notify(k)), s.senders[k];
    assert SenderOk(s, k) && RootOk(s, x.root);
    forall c | 0 <= c < |t.chans| ensures ChanOk(t, c) {
      assert c < |s.chans| ==> ChanOk(s, c);
    }
    forall r ensures RootOk(t, r) {
      assert RootOk(s, r);
    }
  }

  lemma NotifyKeepsSenders(s: State, k: nat)
    requires Inv(s) && Enabled(s, Notify(k))
    ensures var t := Next(s, Notify(k));
            && (forall j {:trigger SenderOk(t, j)} :: 0 <= j < |t.senders| ==> SenderOk(t, j))
            && (forall i, j {:trigger PairOk(t, i, j)} ::
                  0 <= i < |t.senders| && 0 <= j < |t.senders| ==> PairOk(t, i, j))
  {
    var t, x := Next(s, Notify(k)), s.senders[k];
    assert RootOk(s, x.root);
    forall j | 0 <= j < |t.senders| ensures SenderOk(t, j) {
      assert SenderOk(s, j);
      assert x.root in s.entries && EntryOf(s, x.root).notifier.Some? ==> ChanOk(s, EntryOf(s, x.root).notifier.value);
    }
    forall i, j | 0 <= i < |t.senders| && 0 <= j < |t.senders| ensures PairOk(t, i, j) {
      assert PairOk(s, i, j) && SenderOk(s, i) && SenderOk(s, j);
    }
  }

  lemma NotifyKeepsInv(s: State, k: nat)
    requires Inv(s) && Enabled(s, Notify(k))
    ensures Inv(Next(s, Notify(k)))
  {
    var t := Next(s, Notify(k));
    NotifyKeepsItems(s, k);
    NotifyKeepsSenders(s, k);
    forall r | r in t.waiters ensures WaiterOk(t, r) {
      forall i: nat | i < MAX_BLOBS_PER_BLOCK && InTransit(s, r, i) ensures InTransit(t, r, i) {
        NotifyTransit(s, k, r, i);
      }
      assert WaiterOk(s, r);
      WaiterFrame(s, t, r);
    }
  }

  // Send

  lemma {:induction false} DistinctBound(h: seq<nat>, room: set<nat>)
    requires Distinct(h) && forall i :: i in h ==> i in room
    ensures |h| <= |room|
  {
    if h != [] {
      var n := |h| - 1;
      assert h[n] in room;
      forall i | i in h[..n] ensures i in room - {h[n]} {
        assert i in h;
      }
      DistinctBound(h[..n], room - {h[n]});
    }
  }

  /** The indices below `n`. */
  function Below(n: nat): (r: set<nat>)
    ensures |r| == n
    ensures forall i :: i in r <==> 0 <= i < n
  {
    if n == 0 then {} else Below(n - 1) + {n - 1}
  }

  /** A sender about to send finds room: the send outside the lock never blocks. */
  lemma SendHasRoom(s: State, k: nat)
    requires Inv(s) && k < |s.senders| && s.senders[k].phase.Sending?
    ensures Enabled(s, Send(k))
  {
    assert SenderOk(s, k);
    var c := s.senders[k].phase.c;
    assert ChanOk(s, c);
    var room := Below(MAX_BLOBS_PER_BLOCK) - {s.senders[k].idx};
    forall i | i in s.chans[c].history ensures i in room {
      assert Legit(s, s.chans[c].root, i);
    }
    assert Legit(s, s.chans[c].root, s.senders[k].idx);
    DistinctBound(s.chans[c].history, room);
  }

  lemma SendKeepsItems(s: State, k: nat)
    requires Inv(s) && Enabled(s, Send(k))
    ensures var t := Next(s, Send(k));
            && (forall c {:trigger ChanOk(t, c)} :: 0 <= c < |t.chans| ==> ChanOk(t, c))
            && (forall j {:trigger SenderOk(t, j)} :: 0 <= j < |t.senders| ==> SenderOk(t, j))
            && (forall i, j {:trigger PairOk(t, i, j)} ::
                  0 <= i < |t.senders| && 0 <= j < |t.senders| ==> PairOk(t, i, j))
            && (forall r {:trigger RootOk(t, r)} :: RootOk(t, r))
  {
    var t := Next(s, Send(k));
    assert SenderOk(s, k);
    forall c | 0 <= c < |t.chans| ensures ChanOk(t, c) {
      assert ChanOk(s, c);
    }
    forall j | 0 <= j < |t.senders| ensures SenderOk(t, j) {
      assert SenderOk(s, j) && PairOk(s, j, k);
    }
    forall i, j | 0 <= i < |t.senders| && 0 <= j < |t.senders| ensures PairOk(t, i, j) {
      assert PairOk(s, i, j);
    }
    forall r ensures RootOk(t, r) {
      assert RootOk(s, r);
    }
  }

  lemma SendTransit(s: State, k: nat, r: Root, i: nat)
    requires Inv(s) && Enabled(s, Send(k)) && InTransit(s, r, i)
    ensures InTransit(Next(s, Send(k)), r, i)
  {
    var t, c := Next(s, Send(k)), s.senders[k].phase.c;
    assert ChanOk(s, c);
    assert t.chans[c].history[t.chans[c].read..] == s.chans[c].history[s.chans[c].read..] + [s.senders[k].idx];
    TransitFrame(s, t, r, i);
  }

  lemma SendKeepsInv(s: State, k: nat)
    requires Inv(s) && Enabled(s, Send(k))
    ensures Inv(Next(s, Send(k)))
  {
    var t := Next(s, Send(k));
    SendKeepsItems(s, k);
    forall r | r in t.waiters ensures WaiterOk(t, r) {
      forall i: nat | i < MAX_BLOBS_PER_BLOCK && InTransit(s, r, i) ensures InTransit(t, r, i) {
        SendTransit(s, k, r, i);
      }
      WaiterFrame(s, t, r);
    }
  }

  // The waiter's own steps

  lemma OtherWaiters(s: State, t: State, r0: Root)
    requires Inv(s) && t.stored == s.stored && t.senders == s.senders && |t.chans| >= |s.chans|
    requires forall r :: r != r0 && r in t.waiters ==> r in s.waiters && t.waiters[r] == s.waiters[r]
    requires forall r {:trigger EntryOf(t, r)} :: r != r0 ==> EntryOf(t, r) == EntryOf(s, r)
    requires forall c :: 0 <= c < |s.chans| && s.chans[c].root != r0 ==> t.chans[c] == s.chans[c]
    ensures forall r {:trigger WaiterOk(t, r)} :: r in t.waiters && r != r0 ==> WaiterOk(t, r)
  {
    forall r | r in t.waiters && r != r0 ensures WaiterOk(t, r) {
      assert RootOk(s, r);
      forall i: nat | i < MAX_BLOBS_PER_BLOCK && InTransit(s, r, i) ensures InTransit(t, r, i) {
        TransitFrame(s, t, r, i);
      }
      WaiterFrame(s, t, r);
    }
  }

  lemma ItemsFrame(s: State, t: State)
    requires Inv(s) && t.stored == s.stored && t.senders == s.senders && |t.chans| >= |s.chans|
    requires forall c :: 0 <= c < |s.chans| ==> t.chans[c].(read := 0) == s.chans[c].(read := 0)
    ensures forall k {:trigger SenderOk(t, k)} :: 0 <= k < |t.senders| ==> SenderOk(t, k)
    ensures forall j, k {:trigger PairOk(t, j, k)} :: 0 <= j < |t.senders| && 0 <= k < |t.senders| ==> PairOk(t, j, k)
  {
    forall k | 0 <= k < |t.senders| ensures SenderOk(t, k) {
      assert SenderOk(s, k);
    }
    forall j, k | 0 <= j < |t.senders| && 0 <= k < |t.senders| ensures PairOk(t, j, k) {
      assert PairOk(s, j, k);
    }
  }

  lemma CheckKeepsInv(s: State, r0: Root, expected: seq<Commitment>)
    requires Inv(s) && Enabled(s, Check(r0, expected))
    ensures Inv(Next(s, Check(r0, expected)))
  {
    var t := Next(s, Check(r0, expected));
    ItemsFrame(s, t);
    OtherWaiters(s, t, r0);
    forall c | 0 <= c < |t.chans| ensures ChanOk(t, c) {
      assert ChanOk(s, c);
    }
    forall r ensures RootOk(t, r) {
      assert RootOk(s, r);
    }
    CheckWaiter(s, r0, expected);
  }

  lemma CheckWaiter(s: State, r0: Root, expected: seq<Commitment>)
    requires Enabled(s, Check(r0, expected))
    ensures WaiterOk(Next(s, Check(r0, expected)), r0)
  {
    var need := Needed(expected);
    var missing := Unstored(s, r0, need);
    forall i | i in need && i !in missing ensures (r0, i) in s.stored {}
    assert missing == {} ==> AllStored(s, r0, need);
  }

  lemma ForRootKeepsInv(s: State, r0: Root)
    requires Inv(s) && Enabled(s, ForRoot(r0))
    ensures Inv(Next(s, ForRoot(r0)))
  {
    var t := Next(s, ForRoot(r0));
    assert RootOk(s, r0);
    ItemsFrame(s, t);
    OtherWaiters(s, t, r0);
    forall c | 0 <= c < |t.chans| ensures ChanOk(t, c) {
      assert c < |s.chans| ==> ChanOk(s, c);
    }
    forall r ensures RootOk(t, r) {
      assert RootOk(s, r);
    }
    ForRootWaiter(s, r0);
  }

  lemma ForRootWaiter(s: State, r0: Root)
    requires Inv(s) && Enabled(s, ForRoot(r0))
    ensures WaiterOk(Next(s, ForRoot(r0)), r0)
  {
    var t := Next(s, ForRoot(r0));
    assert RootOk(s, r0) && WaiterOk(s, r0);
    forall i: nat | i < MAX_BLOBS_PER_BLOCK && InTransit(s, r0, i) ensures InTransit(t, r0, i) {
      if i !in EntryOf(s, r0).seen {
        var k: nat :| SavedAt(s, k, r0, i);
        assert SavedAt(t, k, r0, i);
      } else {
        TransitFrame(s, t, r0, i);
      }
    }
    AwaitsFrame(s, t, r0, s.waiters[r0].need, s.waiters[r0].missing);
  }

  lemma ReceiveKeepsInv(s: State, r0: Root)
    requires Inv(s) && Enabled(s, Receive(r0))
    ensures Inv(Next(s, Receive(r0)))
  {
    var t := Next(s, Receive(r0));
    assert RootOk(s, r0) && WaiterOk(s, r0);
    ItemsFrame(s, t);
    OtherWaiters(s, t, r0);
    forall c | 0 <= c < |t.chans| ensures ChanOk(t, c) {
      assert ChanOk(s, c);
    }
    forall r ensures RootOk(t, r) {
      assert RootOk(s, r);
    }
    ReceiveWaiter(s, r0);
  }

  lemma ReceiveTransit(s: State, r0: Root, i: nat)
    requires Inv(s) && Enabled(s, Receive(r0)) && InTransit(s, r0, i)
    requires var ch := s.chans[s.waiters[r0].c]; i != ch.history[ch.read]
    ensures InTransit(Next(s, Receive(r0)), r0, i)
  {
    var t, c := Next(s, Receive(r0)), s.waiters[r0].c;
    var ch := s.chans[c];
    assert WaiterOk(s, r0);
    assert ch.history[ch.read..] == [ch.history[ch.read]] + ch.history[ch.read + 1..];
    TransitFrame(s, t, r0, i);
  }

  lemma ReceiveWaiter(s: State, r0: Root)
    requires Inv(s) && Enabled(s, Receive(r0))
    ensures WaiterOk(Next(s, Receive(r0)), r0)
  {
    var t, w := Next(s, Receive(r0)), s.waiters[r0];
    var ch := s.chans[w.c];
    var h := ch.history[ch.read];
    assert WaiterOk(s, r0) && RootOk(s, r0) && ChanOk(s, w.c);
    assert h in ch.history;
    assert Legit(s, r0, h);
    forall i | i in w.missing - {h} && (r0, i) in t.stored ensures InTransit(t, r0, i) {
      assert InTransit(s, r0, i);
      ReceiveTransit(s, r0, i);
    }
    assert AwaitsRightly(t, r0, w.need, w.missing - {h});
  }

  lemma DeleteKeepsInv(s: State, r0: Root)
    requires Inv(s) && Enabled(s, Delete(r0))
    ensures Inv(Next(s, Delete(r0)))
  {
    var t := Next(s, Delete(r0));
    assert WaiterOk(s, r0);
    ItemsFrame(s, t);
    OtherWaiters(s, t, r0);
    forall c | 0 <= c < |t.chans| ensures ChanOk(t, c) {
      assert ChanOk(s, c);
    }
    forall r ensures RootOk(t, r) {
      assert RootOk(s, r);
    }
    assert WaiterOk(t, r0);
  }

  lemma AbortKeepsInv(s: State, r0: Root)
    requires Inv(s) && Enabled(s, Abort(r0))
    ensures Inv(Next(s, Abort(r0)))
  {
    var t := Next(s, Abort(r0));
    ItemsFrame(s, t);
    OtherWaiters(s, t, r0);
    forall c | 0 <= c < |t.chans| ensures ChanOk(t, c) {
      assert ChanOk(s, c);
    }
    forall r ensures RootOk(t, r) {
      assert RootOk(s, r);
    }
    assert WaiterOk(t, r0);
  }

  lemma StepKeepsInv(s: State, e: Event)
    requires Inv(s) && Enabled(s, e)
    ensures Inv(Next(s, e))
  {
    match e
    case Save(r, idx) => SaveKeepsInv(s, r, idx);
    case Notify(k) => NotifyKeepsInv(s, k);
    case Send(k) => SendKeepsInv(s, k);
    case Check(r, expected) => CheckKeepsInv(s, r, expected);
    case ForRoot(r) => ForRootKeepsInv(s, r);
    case Receive(r) => ReceiveKeepsInv(s, r);
    case Delete(r) => DeleteKeepsInv(s, r);
    case Abort(r) => AbortKeepsInv(s, r);
  }
}
