/**
  The event feed under concurrency: every interleaving of Subscribe, Unsubscribe and Send. Each step is
  one region that the original runs under `mu`, under the send lock, or as one select.
 */
module FeedProtocol {
  import opened CaseList
  import opened Options

  /** Where a subscription is: in use, inside `remove` past its inbox check, or removed. */
  datatype Status = Live | Removing | Gone

  datatype Sub = Sub(ch: Channel, status: Status)

  /** Who holds the send lock. `Panicked` is `delete` called with index -1. */
  datatype Mode =
    | Idle(cases: Cases)
    | Locked(cases: Cases)
    | Sending(p: Progress, atMerge: seq<Sub>)
    | Panicked

  /** A completed Send, with the subscriptions at its merge and at its end. */
  datatype Finished = Finished(p: Progress, atMerge: seq<Sub>, atEnd: seq<Sub>)

  datatype State = State(inbox: Cases, mode: Mode, subs: seq<Sub>, log: seq<Finished>)

  datatype Event =
    | Subscribe(ch: Channel)
    | StartUnsubscribe(k: nat)   // the region of `remove` under f.mu
    | RemoveDirect(k: nat)       // `remove` got the send lock
    | TakeLock
    | Merge(typeMatches: bool)
    | SendOn(i: nat)             // TrySend or select chose active case i
    | RemoveInSend(k: nat)       // Send received the channel from removeSub
    | Finish

  const INITIAL: State := State([], Idle([RemoveSub]), [], [])

  function Enter(s: State, k: nat, st: Status): seq<Sub>
    requires k < |s.subs|
  {
    s.subs[k := s.subs[k].(status := st)]
  }

  predicate Enabled(s: State, e: Event) {
    match e
    case Subscribe(ch) => ch.Subscriber?
    case StartUnsubscribe(k) => k < |s.subs| && s.subs[k].status == Live
    case RemoveDirect(k) => s.mode.Idle? && k < |s.subs| && s.subs[k].status == Removing
    case TakeLock => s.mode.Idle?
    case Merge(_) => s.mode.Locked?
    case SendOn(i) => s.mode.Sending? && Legal(s.mode.p, Sent(i))
    case RemoveInSend(k) => s.mode.Sending? && s.mode.p.active > FIRST_SUB_SEND_CASE
                              && k < |s.subs| && s.subs[k].status == Removing
    case Finish => s.mode.Sending? && s.mode.p.active == FIRST_SUB_SEND_CASE
  }

  function Next(s: State, e: Event): State
    requires Enabled(s, e)
  {
    match e
    case Subscribe(ch) => s.(inbox := s.inbox + [ch], subs := s.subs + [Sub(ch, Live)])
    case StartUnsubscribe(k) => AfterInboxCheck(s, k, Find(s.inbox, s.subs[k].ch))
    case RemoveDirect(k) => AfterDirectFind(s, k, Find(s.mode.cases, s.subs[k].ch))
    case TakeLock => s.(mode := Locked(s.mode.cases))
    case Merge(ok) => AfterMerge(s, s.mode.cases + s.inbox, ok)
    case SendOn(i) => s.(mode := Sending(Deliver(s.mode.p, i), s.mode.atMerge))
    case RemoveInSend(k) => AfterSendFind(s, k, Find(s.mode.p.cases, s.subs[k].ch))
    case Finish => s.(mode := Idle(s.mode.p.cases),
                      log := s.log + [Finished(s.mode.p, s.mode.atMerge, s.subs)])
  }

  function AfterInboxCheck(s: State, k: nat, index: int): State
    requires k < |s.subs| && -1 <= index < |s.inbox|
  {
    if index != -1
    then s.(inbox := DeleteAt(s.inbox, index), subs := Enter(s, k, Gone))
    else s.(subs := Enter(s, k, Removing))
  }

  function AfterDirectFind(s: State, k: nat, index: int): State
    requires k < |s.subs| && s.mode.Idle? && -1 <= index < |s.mode.cases|
  {
    if index == -1 then s.(mode := Panicked)
    else s.(mode := Idle(DeleteAt(s.mode.cases, index)), subs := Enter(s, k, Gone))
  }

  function AfterSendFind(s: State, k: nat, index: int): State
    requires k < |s.subs| && s.mode.Sending? && s.mode.p.active > 0 && -1 <= index < |s.mode.p.cases|
  {
    if index == -1 then s.(mode := Panicked)
    else s.(mode := Sending(Remove(s.mode.p, index), s.mode.atMerge), subs := Enter(s, k, Gone))
  }

  /** A failed type check leaves the merged list; the merged list always is a case list (MergeKeeps). */
  function AfterMerge(s: State, merged: Cases, ok: bool): State {
    if ok && IsCaseList(merged)
    then s.(inbox := [], mode := Sending(Started(merged), s.subs))
    else s.(inbox := [], mode := Idle(merged))
  }

  /** How many subscriptions of `ch` are in the given status. */
  function Count(subs: seq<Sub>, st: Status, ch: Channel): nat {
    if subs == [] then 0
    else Count(subs[..|subs| - 1], st, ch) + One(subs[|subs| - 1], st, ch)
  }

  function One(sub: Sub, st: Status, ch: Channel): nat {
    if sub == Sub(ch, st) then 1 else 0
  }

  /** Subscriptions of `ch` that have not been removed from the feed. */
  function Present(subs: seq<Sub>, ch: Channel): nat {
    Count(subs, Live, ch) + Count(subs, Removing, ch)
  }

  lemma CountAppend(subs: seq<Sub>, sub: Sub, st: Status, ch: Channel)
    ensures Count(subs + [sub], st, ch) == Count(subs, st, ch) + One(sub, st, ch)
  {
    assert (subs + [sub])[..|subs|] == subs;
  }

  /** Changing one status moves one subscription between the classes. */
  lemma {:induction false} CountUpdate(subs: seq<Sub>, k: nat, sub: Sub, st: Status, ch: Channel)
    requires k < |subs|
    ensures Count(subs[k := sub], st, ch) + One(subs[k], st, ch) == Count(subs, st, ch) + One(sub, st, ch)
  {
    var n := |subs| - 1;
    if k == n {
      assert subs[k := sub][..n] == subs[..n];
    } else {
      assert subs[k := sub][..n] == subs[..n][k := sub];
      CountUpdate(subs[..n], k, sub, st, ch);
    }
  }

  lemma {:induction false} CountHas(subs: seq<Sub>, k: nat)
    requires k < |subs|
    ensures Count(subs, subs[k].status, subs[k].ch) >= 1
  {
    if k < |subs| - 1 {
      CountHas(subs[..|subs| - 1], k);
    }
  }

  predicate SubscribersOnly(inbox: Cases) {
    forall i :: 0 <= i < |inbox| ==> inbox[i].Subscriber?
  }

  /** The case list as a value, whoever holds the lock. */
  function CasesOf(m: Mode): Cases
    requires !m.Panicked?
  {
    if m.Sending? then m.p.cases else m.cases
  }

  predicate CasesOk(s: State) {
    !s.mode.Panicked? && IsCaseList(CasesOf(s.mode)) && SubscribersOnly(s.inbox)
  }

  function InCases(s: State): multiset<Channel>
    requires CasesOk(s)
  {
    Subs(CasesOf(s.mode), |CasesOf(s.mode)|)
  }

  /**
    Inbox and case list together hold exactly the subscriptions of `ch` not yet removed, and
    those waiting in `remove` are in the case list.
   */
  predicate Balanced(s: State, ch: Channel)
    requires CasesOk(s)
  {
    && multiset(s.inbox)[ch] + InCases(s)[ch] == Present(s.subs, ch)
    && Count(s.subs, Removing, ch) <= InCases(s)[ch]
  }

  /** What a Send removed really was unsubscribed since its merge. */
  predicate Explains(p: Progress, atMerge: seq<Sub>, now: seq<Sub>, ch: Channel) {
    && p.initial[ch] == Present(atMerge, ch)
    && Count(atMerge, Gone, ch) + p.lost[ch] + p.servedAndRemoved[ch] <= Count(now, Gone, ch)
  }

  ghost predicate SendOk(p: Progress, atMerge: seq<Sub>, now: seq<Sub>) {
    Conserves(p) && forall ch {:trigger Explains(p, atMerge, now, ch)} :: Explains(p, atMerge, now, ch)
  }

  ghost predicate FinishedOk(f: Finished) {
    SendOk(f.p, f.atMerge, f.atEnd) && f.p.active == FIRST_SUB_SEND_CASE
  }

  ghost predicate Inv(s: State) {
    && CasesOk(s)
    && (forall ch {:trigger Balanced(s, ch)} :: Balanced(s, ch))
    && (s.mode.Sending? ==> SendOk(s.mode.p, s.mode.atMerge, s.subs))
    && (forall f {:trigger FinishedOk(f)} :: f in s.log ==> FinishedOk(f))
  }

  lemma InitialInv()
    ensures Inv(INITIAL)
  {
    var none: Cases := [];
    assert multiset(none) == multiset{};
    assert [RemoveSub][1..1] == none;
  }

  /** A waiting removal finds its channel at a subscriber index: `find` is never -1. */
  lemma RemovalFinds(s: State, k: nat)
    requires Inv(s) && k < |s.subs| && s.subs[k].status == Removing
    ensures FIRST_SUB_SEND_CASE <= Find(CasesOf(s.mode), s.subs[k].ch)
  {
    CountHas(s.subs, k);
    assert Balanced(s, s.subs[k].ch);
    FindsSubscriber(CasesOf(s.mode), s.subs[k].ch);
  }

  function IsOne(x: Channel, ch: Channel): nat {
    if x == ch then 1 else 0
  }

  lemma Pointwise(a: multiset<Channel>, x: Channel, b: multiset<Channel>, ch: Channel)
    requires a + multiset{x} == b
    ensures a[ch] + IsOne(x, ch) == b[ch]
  {
    assert b[ch] == a[ch] + multiset{x}[ch];
  }

  lemma KeepsSendOk(s: State, t: State)
    requires Inv(s) && t.mode == s.mode && t.log == s.log
    requires forall ch {:trigger Count(t.subs, Gone, ch)} :: Count(s.subs, Gone, ch) <= Count(t.subs, Gone, ch)
    ensures t.mode.Sending? ==> SendOk(t.mode.p, t.mode.atMerge, t.subs)
  {
    if t.mode.Sending? {
      forall ch ensures Explains(t.mode.p, t.mode.atMerge, t.subs, ch) {
        assert Explains(s.mode.p, s.mode.atMerge, s.subs, ch);
        assert Count(s.subs, Gone, ch) <= Count(t.subs, Gone, ch);
      }
    }
  }

  lemma SubscribeBalances(s: State, ch: Channel, c: Channel)
    requires Inv(s) && ch.Subscriber?
    ensures var t := Next(s, Subscribe(ch));
            CasesOk(t) && Balanced(t, c) && Count(t.subs, Gone, c) == Count(s.subs, Gone, c)
  {
    var t := Next(s, Subscribe(ch));
    var sub := Sub(ch, Live);
    assert Balanced(s, c);
    CountAppend(s.subs, sub, Live, c);
    CountAppend(s.subs, sub, Removing, c);
    CountAppend(s.subs, sub, Gone, c);
    assert multiset(t.inbox) == multiset(s.inbox) + multiset{ch};
    Pointwise(multiset(s.inbox), ch, multiset(t.inbox), c);
  }

  lemma SubscribeKeeps(s: State, ch: Channel)
    requires Inv(s) && ch.Subscriber?
    ensures Inv(Next(s, Subscribe(ch)))
  {
    var t := Next(s, Subscribe(ch));
    forall c
      ensures CasesOk(t) && Balanced(t, c)
      ensures Count(s.subs, Gone, c) <= Count(t.subs, Gone, c)
    {
      SubscribeBalances(s, ch, c);
    }
    KeepsSendOk(s, t);
  }

  /** The counts after one subscription enters another status. */
  lemma EnterCounts(s: State, k: nat, to: Status, c: Channel)
    requires k < |s.subs|
    ensures forall st :: Count(Enter(s, k, to), st, c) + One(s.subs[k], st, c)
                      == Count(s.subs, st, c) + One(Sub(s.subs[k].ch, to), st, c)
  {
    forall st {
      CountUpdate(s.subs, k, s.subs[k].(status := to), st, c);
    }
  }

  lemma InboxUnsubscribeBalances(s: State, k: nat, index: nat, c: Channel)
    requires Inv(s) && k < |s.subs| && s.subs[k].status == Live
    requires index < |s.inbox| && s.inbox[index] == s.subs[k].ch
    ensures var t := AfterInboxCheck(s, k, index);
            CasesOk(t) && Balanced(t, c) && Count(t.subs, Gone, c) >= Count(s.subs, Gone, c)
  {
    var t := AfterInboxCheck(s, k, index);
    assert Balanced(s, c);
    EnterCounts(s, k, Gone, c);
    InboxDelete(s.inbox, index);
    Pointwise(multiset(t.inbox), s.inbox[index], multiset(s.inbox), c);
  }

  /** Not in the inbox: then the channel is in the case list beside those already waiting. */
  lemma WaitingUnsubscribeBalances(s: State, k: nat, c: Channel)
    requires Inv(s) && k < |s.subs| && s.subs[k].status == Live && s.subs[k].ch !in s.inbox
    ensures var t := AfterInboxCheck(s, k, -1);
            CasesOk(t) && Balanced(t, c) && Count(t.subs, Gone, c) == Count(s.subs, Gone, c)
  {
    assert Balanced(s, c);
    EnterCounts(s, k, Removing, c);
    CountHas(s.subs, k);
    assert c == s.subs[k].ch ==> multiset(s.inbox)[c] == 0;
  }

  lemma StartUnsubscribeKeeps(s: State, k: nat)
    requires Inv(s) && k < |s.subs| && s.subs[k].status == Live
    ensures Inv(Next(s, StartUnsubscribe(k)))
  {
    var index := Find(s.inbox, s.subs[k].ch);
    var t := Next(s, StartUnsubscribe(k));
    forall c
      ensures CasesOk(t) && Balanced(t, c)
      ensures Count(s.subs, Gone, c) <= Count(t.subs, Gone, c)
    {
      if index == -1 {
        WaitingUnsubscribeBalances(s, k, c);
      } else {
        InboxUnsubscribeBalances(s, k, index, c);
      }
    }
    KeepsSendOk(s, t);
  }

  /** The two removals from the case list balance alike. */
  lemma RemovalBalances(s: State, t: State, k: nat, c: Channel)
    requires Inv(s) && k < |s.subs| && s.subs[k].status == Removing
    requires CasesOk(t) && t.inbox == s.inbox && t.subs == Enter(s, k, Gone)
    requires InCases(t) + multiset{s.subs[k].ch} == InCases(s)
    ensures Balanced(t, c)
    ensures Count(t.subs, Gone, c) == Count(s.subs, Gone, c) + IsOne(s.subs[k].ch, c)
  {
    assert Balanced(s, c);
    EnterCounts(s, k, Gone, c);
    Pointwise(InCases(t), s.subs[k].ch, InCases(s), c);
  }

  lemma RemoveDirectKeeps(s: State, k: nat)
    requires Inv(s) && Enabled(s, RemoveDirect(k))
    ensures Inv(Next(s, RemoveDirect(k)))
  {
    RemovalFinds(s, k);
    var t := Next(s, RemoveDirect(k));
    var index: nat := Find(s.mode.cases, s.subs[k].ch);
    DeleteIsCaseList(s.mode.cases, index);
    DeleteFromAll(s.mode.cases, index, t.mode.cases);
    forall c ensures Balanced(t, c) {
      RemovalBalances(s, t, k, c);
    }
  }

  lemma RemoveInSendKeeps(s: State, k: nat)
    requires Inv(s) && Enabled(s, RemoveInSend(k))
    ensures Inv(Next(s, RemoveInSend(k)))
  {
    RemovalFinds(s, k);
    var t := Next(s, RemoveInSend(k));
    var index: nat := Find(s.mode.p.cases, s.subs[k].ch);
    RemoveConserves(s.mode.p, index);
    DeleteFromAll(s.mode.p.cases, index, t.mode.p.cases);
    forall c ensures Balanced(t, c) && Explains(t.mode.p, t.mode.atMerge, t.subs, c) {
      RemovalBalances(s, t, k, c);
      assert Explains(s.mode.p, s.mode.atMerge, s.subs, c);
      RemovedIsGone(s.mode.p, index, c);
    }
  }

  lemma RemovedIsGone(p: Progress, i: nat, c: Channel)
    requires i < |p.cases| && p.active > 0
    ensures var q := Remove(p, i);
            && q.initial == p.initial
            && q.lost[c] + q.servedAndRemoved[c] == p.lost[c] + p.servedAndRemoved[c] + IsOne(p.cases[i], c)
  {}

  lemma MergeKeeps(s: State, ok: bool)
    requires Inv(s) && s.mode.Locked?
    ensures Inv(Next(s, Merge(ok)))
    ensures Next(s, Merge(ok)).mode.Sending? == ok
  {
    var merged := s.mode.cases + s.inbox;
    var t := Next(s, Merge(ok));
    MergeSubs(s.mode.cases, s.inbox);
    StartedConserves(merged);
    forall c ensures Balanced(t, c) && Subs(merged, |merged|)[c] == Present(s.subs, c) {
      MergeBalances(s, merged, t, c);
    }
    if ok {
      forall c ensures Explains(t.mode.p, t.mode.atMerge, t.subs, c) {
        assert Subs(merged, |merged|)[c] == Present(s.subs, c);
      }
    }
  }

  lemma MergeBalances(s: State, merged: Cases, t: State, c: Channel)
    requires Inv(s) && s.mode.Locked? && CasesOk(t) && CasesOf(t.mode) == merged
    requires t.inbox == [] && t.subs == s.subs
    requires Subs(merged, |merged|) == Subs(s.mode.cases, |s.mode.cases|) + multiset(s.inbox)
    ensures Balanced(t, c) && Subs(merged, |merged|)[c] == Present(s.subs, c)
  {
    assert Balanced(s, c);
    assert multiset(t.inbox)[c] == 0;
  }

  lemma SendOnKeeps(s: State, i: nat)
    requires Inv(s) && Enabled(s, SendOn(i))
    ensures Inv(Next(s, SendOn(i)))
  {
    var t := Next(s, SendOn(i));
    DeliverConserves(s.mode.p, i);
    SwapPrefix(s.mode.p.cases, i, s.mode.p.active - 1, |s.mode.p.cases|);
    forall c ensures Balanced(t, c) && Explains(t.mode.p, t.mode.atMerge, t.subs, c) {
      assert Balanced(s, c) && Explains(s.mode.p, s.mode.atMerge, s.subs, c);
    }
  }

  lemma FinishKeeps(s: State)
    requires Inv(s) && Enabled(s, Finish)
    ensures Inv(Next(s, Finish))
  {
    var t := Next(s, Finish);
    forall c ensures Balanced(t, c) {
      assert Balanced(s, c);
    }
    assert FinishedOk(Finished(s.mode.p, s.mode.atMerge, s.subs));
  }

  lemma TakeLockKeeps(s: State)
    requires Inv(s) && Enabled(s, TakeLock)
    ensures Inv(Next(s, TakeLock))
  {
    var t := Next(s, TakeLock);
    forall c ensures Balanced(t, c) {
      assert Balanced(s, c);
    }
  }

  lemma StepKeepsInv(s: State, e: Event)
    requires Inv(s) && Enabled(s, e)
    ensures Inv(Next(s, e))
  {
    match e
    case Subscribe(ch) => SubscribeKeeps(s, ch);
    case StartUnsubscribe(k) => StartUnsubscribeKeeps(s, k);
    case RemoveDirect(k) => RemoveDirectKeeps(s, k);
    case TakeLock => TakeLockKeeps(s);
    case Merge(ok) => MergeKeeps(s, ok);
    case SendOn(i) => SendOnKeeps(s, i);
    case RemoveInSend(k) => RemoveInSendKeeps(s, k);
    case Finish => FinishKeeps(s);
  }

  /** The state after a run, or None when some event of it was not possible. */
  function Run(events: seq<Event>): Option<State> {
    if events == [] then Some(INITIAL)
    else
      match Run(events[..|events| - 1])
      case None => None
      case Some(s) => if Enabled(s, events[|events| - 1]) then Some(Next(s, events[|events| - 1])) else None
  }

  lemma {:induction false} RunKeepsInv(events: seq<Event>)
    ensures Run(events).Some? ==> Inv(Run(events).value)
  {
    if events == [] {
      InitialInv();
    } else {
      var n := |events| - 1;
      RunKeepsInv(events[..n]);
      if Run(events).Some? {
        StepKeepsInv(Run(events[..n]).value, events[n]);
      }
    }
  }

  /**
    Over every interleaving: the feed never panics, its inbox and case list hold exactly the
    subscriptions not yet removed, and a waiting removal will find its channel.
   */
  lemma FeedNeverPanics(events: seq<Event>)
    requires Run(events).Some?
    ensures var s := Run(events).value;
            && CasesOk(s)
            && (forall ch :: multiset(s.inbox)[ch] + InCases(s)[ch] == Present(s.subs, ch))
            && (forall k {:trigger s.subs[k]} :: 0 <= k < |s.subs| && s.subs[k].status == Removing
                 ==> Find(CasesOf(s.mode), s.subs[k].ch) >= FIRST_SUB_SEND_CASE)
  {
    RunKeepsInv(events);
    var s := Run(events).value;
    forall ch ensures multiset(s.inbox)[ch] + InCases(s)[ch] == Present(s.subs, ch) {
      assert Balanced(s, ch);
    }
    forall k | 0 <= k < |s.subs| && s.subs[k].status == Removing
      ensures Find(CasesOf(s.mode), s.subs[k].ch) >= FIRST_SUB_SEND_CASE
    {
      RemovalFinds(s, k);
    }
  }

  /**
    Over every interleaving, each completed Send delivers to a channel at most once per
    subscription present at its merge, and exactly once per subscription unless one of
    that channel was removed between the merge and the end of the Send.
   */
  lemma EverySendServesOnce(events: seq<Event>, f: Finished, ch: Channel)
    requires Run(events).Some? && f in Run(events).value.log
    ensures multiset(f.p.delivered)[ch] <= Present(f.atMerge, ch)
    ensures Count(f.atEnd, Gone, ch) == Count(f.atMerge, Gone, ch)
        ==> multiset(f.p.delivered)[ch] == Present(f.atMerge, ch)
  {
    RunKeepsInv(events);
    assert FinishedOk(f);
    assert Explains(f.p, f.atMerge, f.atEnd, ch);
    assert f.p.cases[1..1] == [];
    assert (multiset(f.p.delivered) + f.p.lost)[ch] == f.p.initial[ch];
  }
}
