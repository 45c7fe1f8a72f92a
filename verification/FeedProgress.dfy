/**
  What calls on the feed bring about: a removal takes exactly one subscription out, and a Send can always run to
  its end, reaching every subscription there was when it merged.
 */
module FeedProgress {
  import opened Options
  import opened CaseList
  import opened FeedProtocol

  /** Unsubscribing a channel that is still in the inbox takes it out there; otherwise it has to wait for a lock. */
  lemma UnsubscribeTakesOne(events: seq<Event>, s: State, k: nat)
    requires Run(events) == Some(s) && Enabled(s, StartUnsubscribe(k))
    ensures var t, ch := Next(s, StartUnsubscribe(k)), s.subs[k].ch;
            && t.mode == s.mode && t.log == s.log
            && (if ch in s.inbox
                then t.subs == s.subs[k := Sub(ch, Gone)] && multiset(t.inbox) + multiset{ch} == multiset(s.inbox)
                else t.subs == s.subs[k := Sub(ch, Removing)] && t.inbox == s.inbox)
  {
    var index := Find(s.inbox, s.subs[k].ch);
    if index != -1 {
      InboxDelete(s.inbox, index);
    }
  }

  /** A waiting removal takes exactly one case of its channel, whoever performs it. */
  lemma RemovalTakesOne(events: seq<Event>, s: State, e: Event, k: nat)
    requires Run(events) == Some(s) && Enabled(s, e) && (e == RemoveDirect(k) || e == RemoveInSend(k))
    ensures var t, ch := Next(s, e), s.subs[k].ch;
            && CasesOk(s) && CasesOk(t) && InCases(t) + multiset{ch} == InCases(s)
            && t.subs == s.subs[k := Sub(ch, Gone)] && t.inbox == s.inbox && t.log == s.log
            && t.mode.Idle? == s.mode.Idle?
  {
    RunKeepsInv(events);
    StepKeepsInv(s, e);
    RemovalFinds(s, k);
    var index: nat := Find(CasesOf(s.mode), s.subs[k].ch);
    DeleteFromAll(CasesOf(s.mode), index, CasesOf(Next(s, e).mode));
  }

  /** A run from `s` to `t` of steps of one Send. */
  predicate Leads(s: State, events: seq<Event>, t: State)
    decreases |events|
  {
    if events == [] then s == t
    else
      && Enabled(s, events[0])
      && (events[0].TakeLock? || events[0] == Merge(true) || events[0].SendOn? || events[0].Finish?)
      && Leads(Next(s, events[0]), events[1..], t)
  }

  lemma LeadsFirst(s: State, e: Event, rest: seq<Event>, t: State)
    requires Enabled(s, e) && (e.TakeLock? || e == Merge(true) || e.SendOn? || e.Finish?)
    requires Leads(Next(s, e), rest, t)
    ensures Leads(s, [e] + rest, t)
  {
    assert ([e] + rest)[1..] == rest;
  }

  /** The Send that was in progress in `s` is over, without a removal in between. */
  ghost predicate Ended(s: State, t: State)
    requires s.mode.Sending?
  {
    && t.mode.Idle? && t.inbox == s.inbox && t.subs == s.subs && |t.log| == |s.log| + 1 && t.log[..|s.log|] == s.log
    && var f := t.log[|s.log|];
       && f.atMerge == s.mode.atMerge && f.atEnd == s.subs
       && f.p.initial == s.mode.p.initial
       && multiset(f.p.delivered) + s.mode.p.lost == f.p.initial
  }

  /** Sending to one active case after the other ends the Send. */
  lemma {:induction false} SendsRest(s: State) returns (events: seq<Event>, t: State)
    requires Inv(s) && s.mode.Sending?
    ensures Leads(s, events, t) && Ended(s, t)
    decreases if s.mode.Sending? then s.mode.p.active else 0
  {
    var e := if s.mode.p.active == FIRST_SUB_SEND_CASE then Finish else SendOn(FIRST_SUB_SEND_CASE);
    StepKeepsInv(s, e);
    var u := Next(s, e);
    var rest: seq<Event> := [];
    if e.Finish? {
      t := u;
      assert Leads(t, [], t);
      AllServed(s.mode.p);
    } else {
      rest, t := SendsRest(u);
    }
    events := [e] + rest;
    LeadsFirst(s, e, rest, t);
  }

  lemma AllServed(p: Progress)
    requires Conserves(p) && p.active == FIRST_SUB_SEND_CASE
    ensures multiset(p.delivered) + p.lost == p.initial
  {
    assert p.cases[1..1] == [];
  }

  /**
    In every reachable state with the send lock free, a Send can run to its end on its own; it then has delivered
    to each channel exactly once per subscription there was.
   */
  lemma SendReachesAll(past: seq<Event>, s: State) returns (events: seq<Event>, t: State, f: Finished)
    requires Run(past) == Some(s) && s.mode.Idle?
    ensures Leads(s, events, t) && t.mode.Idle? && t.subs == s.subs && t.inbox == [] && t.log == s.log + [f]
    ensures forall ch :: multiset(f.p.delivered)[ch] == Present(s.subs, ch)
  {
    RunKeepsInv(past);
    var u := Next(s, TakeLock);
    StepKeepsInv(s, TakeLock);
    var v := Next(u, Merge(true));
    StepKeepsInv(u, Merge(true));
    MergeKeeps(u, true);
    var rest;
    rest, t := SendsRest(v);
    LeadsFirst(u, Merge(true), rest, t);
    events := [TakeLock] + ([Merge(true)] + rest);
    LeadsFirst(s, TakeLock, [Merge(true)] + rest, t);
    f := t.log[|s.log|];
    forall ch ensures multiset(f.p.delivered)[ch] == Present(s.subs, ch) {
      assert Explains(v.mode.p, v.mode.atMerge, v.subs, ch);
      assert (multiset(f.p.delivered) + v.mode.p.lost)[ch] == f.p.initial[ch];
    }
  }
}
