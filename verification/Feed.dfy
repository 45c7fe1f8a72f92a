/**
  The event feed as the mutable object of the original: `sendCases` is a backing array with a length,
  and the active `cases` of a Send are a shorter prefix of the same array.
 */
module Feed {
  import opened CaseList
  import opened Options

  class Feed {
    var cases: array<Channel>   // backing array of f.sendCases
    var len: nat                // len(f.sendCases)
    var inbox: Cases
    var sendLock: bool          // the token is available

    ghost predicate Valid()
      reads this, cases
    {
      && len <= cases.Length
      && IsCaseList(cases[..len])
      && forall i :: 0 <= i < |inbox| ==> inbox[i].Subscriber?
    }

    /** The feed's case list as a value. */
    ghost function SendCases(): Cases
      reads this, cases
      requires len <= cases.Length
    {
      cases[..len]
    }

    /** Every channel subscribed and not yet removed. */
    ghost function Subscribed(): multiset<Channel>
      reads this, cases
      requires Valid()
    {
      multiset(inbox) + Subs(SendCases(), len)
    }

    constructor ()
      ensures Valid() && fresh(cases) && sendLock
      ensures SendCases() == [RemoveSub] && inbox == [] && Subscribed() == multiset{}
    {
      cases := new Channel[1](_ => RemoveSub);
      len, inbox, sendLock := 1, [], true;
    }

    method Subscribe(ch: Channel)
      requires Valid() && ch.Subscriber?
      modifies this`inbox
      ensures Valid() && inbox == old(inbox) + [ch]
      ensures Subscribed() == old(Subscribed()) + multiset{ch}
    {
      inbox := inbox + [ch];
    }

    /** `delete` in place: shift the tail down by one. */
    method Delete(index: nat)
      requires len <= cases.Length && index < len
      modifies this`len, cases
      ensures len == old(len) - 1 && SendCases() == DeleteAt(old(SendCases()), index)
    {
      for k := index to len - 1
        invariant len == old(len) && cases == old(cases)
        invariant forall j :: 0 <= j < index ==> cases[j] == old(cases[j])
        invariant forall j :: index <= j < k ==> cases[j] == old(cases[j + 1])
        invariant forall j :: k <= j < len ==> cases[j] == old(cases[j])
      {
        cases[k] := cases[k + 1];
      }
      len := len - 1;
    }

    /** `deactivate`: swap case `index` with the last active one. */
    method Deactivate(active: nat, index: nat)
      requires len <= cases.Length && index < active <= len
      modifies cases
      ensures SendCases() == Swap(old(SendCases()), index, active - 1)
    {
      cases[index], cases[active - 1] := cases[active - 1], cases[index];
    }

    /** Send's first step under both locks: the inbox joins the case list and is emptied. */
    method Merge()
      requires Valid()
      modifies this`cases, this`len, this`inbox
      ensures Valid() && fresh(cases) && inbox == []
      ensures SendCases() == old(SendCases()) + old(inbox)
      ensures len == |SendCases()| && Subs(SendCases(), len) == old(Subscribed())
    {
      MergeSubs(SendCases(), inbox);
      ghost var merged := SendCases() + inbox;
      var n, old_, box := len, cases, inbox;
      cases := new Channel[n + |box|](i requires 0 <= i < n + |box| reads old_ =>
        if i < n && i < old_.Length then old_[i] else if i >= n then box[i - n] else RemoveSub);
      len, inbox := n + |box|, [];
      assert SendCases() == merged;
    }

    /**
      `Unsubscribe` while no Send is in progress: from the inbox if the channel is there,
      otherwise from the case list, where `find` never misses.
     */
    method Unsubscribe(ch: Channel)
      requires Valid() && sendLock && ch in Subscribed()
      modifies this`inbox, this`len, cases
      ensures Valid() && sendLock == old(sendLock)
      ensures Subscribed() + multiset{ch} == old(Subscribed())
    {
      var index := Find(inbox, ch);
      if index != -1 {
        InboxDelete(inbox, index);
        inbox := DeleteAt(inbox, index);
      } else {
        ghost var before := Subs(SendCases(), len);
        RemoveFromCases(ch);
        ShiftOne(Subs(SendCases(), len), before, ch, multiset(inbox));
      }
    }

    /** Find and delete the channel's case, with the send lock held. */
    method RemoveFromCases(ch: Channel)
      requires Valid() && ch in Subs(SendCases(), len)
      modifies this`len, cases
      ensures Valid()
      ensures Subs(SendCases(), len) + multiset{ch} == old(Subs(SendCases(), len))
    {
      var i := FindCase(ch);
      DeleteIsCaseList(SendCases(), i);
      DeletePrefix(SendCases(), len, i);
      Delete(i);
    }

    /** `find` for a subscribed channel: never -1, never the receive case. */
    method FindCase(ch: Channel) returns (i: nat)
      requires len <= cases.Length && IsCaseList(SendCases()) && ch in Subs(SendCases(), len)
      ensures FIRST_SUB_SEND_CASE <= i < len && SendCases()[i] == ch
    {
      FindsSubscriber(SendCases(), ch);
      i := Find(cases[..len], ch);
    }

    /** The array and its length hold the case list of `p`. */
    ghost predicate Holds(p: Progress)
      reads this, cases
    {
      len == |p.cases| && len <= cases.Length && cases[..len] == p.cases
    }

    /**
      `Send`, with the unsubscriptions that ask for a removal during it. The scheduler is free: any `TrySend` may
      succeed or not, and any active case or waiting removal may be chosen by the select. `moves` is the schedule
      that was followed and `p` the state it led to.
     */
    method Send(typeMatches: bool, requests: multiset<Channel>)
      returns (nsent: nat, panicked: bool, ghost moves: seq<Move>, ghost p: Progress)
      requires Valid() && sendLock && requests <= Subscribed()
      modifies this`cases, this`len, this`inbox, this`sendLock
      ensures Valid() && sendLock && inbox == []
      ensures panicked == !typeMatches
      ensures Holds(p) && nsent == |p.delivered|
      ensures Outcome(Started(old(SendCases() + inbox)), moves) == Some(p)
      ensures if panicked then moves == [] else p.active == FIRST_SUB_SEND_CASE
      // each case present after the merge was served once or removed while active, as somebody had asked
      ensures !panicked ==> multiset(p.delivered) + p.lost == old(Subscribed())
      ensures p.lost + p.servedAndRemoved <= requests
      ensures !panicked ==> nsent + |p.lost| == old(|SendCases() + inbox|) - FIRST_SUB_SEND_CASE
      ensures Subscribed() + p.lost + p.servedAndRemoved == old(Subscribed())
    {
      nsent, panicked, moves := 0, false, [];
      sendLock := false;
      Merge();
      ghost var cs := SendCases();
      p := Started(cs);
      if !typeMatches {
        sendLock := true;
        panicked := true;
        return;
      }
      nsent, moves, p := Deliveries(requests, cs);
      EveryScheduleServesOnce(cs, moves, p);
      sendLock := true;
    }

    /** The outer loop of `Send`, from the merged case list to the last active case. */
    method Deliveries(requests: multiset<Channel>, ghost cs: Cases)
      returns (nsent: nat, ghost moves: seq<Move>, ghost p: Progress)
      requires IsCaseList(cs) && Holds(Started(cs)) && requests <= Subs(cs, |cs|)
      modifies this`len, cases
      ensures Holds(p) && Tracks(Started(cs), moves, p, FIRST_SUB_SEND_CASE, nsent)
      ensures p.lost + p.servedAndRemoved <= requests
    {
      nsent, moves, p := 0, [], Started(cs);
      var active, waiting := len, requests;
      while true
        invariant cases == old(cases) && Holds(p) && Tracks(Started(cs), moves, p, active, nsent)
        invariant Remaining(p, waiting) == requests
        decreases len + active
      {
        active, nsent, moves, p := FastPath(active, nsent, Started(cs), moves, p);
        if active == FIRST_SUB_SEND_CASE {
          break;
        }
        StartedConserves(cs);
        ScheduleConserves(Started(cs), moves, p);
        active, nsent, waiting, moves, p := SelectOne(active, nsent, waiting, Started(cs), moves, p);
      }
    }

    /** The removals done and those still waiting. */
    ghost function Remaining(p: Progress, waiting: multiset<Channel>): multiset<Channel> {
      p.lost + p.servedAndRemoved + waiting
    }

    /** The non-blocking pass over the active cases; `i--` re-examines the case swapped in. */
    method FastPath(active0: nat, nsent0: nat, ghost start: Progress, ghost moves0: seq<Move>, ghost p0: Progress)
      returns (active: nat, nsent: nat, ghost moves: seq<Move>, ghost p: Progress)
      requires Holds(p0) && Tracks(start, moves0, p0, active0, nsent0)
      modifies cases
      ensures Holds(p) && Tracks(start, moves, p, active, nsent) && active <= active0
      ensures p.lost == p0.lost && p.servedAndRemoved == p0.servedAndRemoved
    {
      active, nsent, moves, p := active0, nsent0, moves0, p0;
      var i := FIRST_SUB_SEND_CASE;
      while i < active
        invariant FIRST_SUB_SEND_CASE <= i && active <= active0
        invariant Holds(p) && Tracks(start, moves, p, active, nsent)
        invariant p.lost == p0.lost && p.servedAndRemoved == p0.servedAndRemoved
        decreases active, active - i
      {
        var accepted: bool := *;
        if accepted {
          active, nsent, moves, p := SendOn(i, active, nsent, start, moves, p);
        } else {
          i := i + 1;
        }
      }
    }

    /** One blocking select: a waiting removal is received or one of the active cases is sent. */
    method SelectOne(
      active0: nat, nsent0: nat, waiting0: multiset<Channel>,
      ghost start: Progress, ghost moves0: seq<Move>, ghost p0: Progress)
      returns (active: nat, nsent: nat, waiting: multiset<Channel>, ghost moves: seq<Move>, ghost p: Progress)
      requires Holds(p0) && Tracks(start, moves0, p0, active0, nsent0) && active0 > FIRST_SUB_SEND_CASE
      requires Conserves(p0) && Remaining(p0, waiting0) <= p0.initial
      modifies this`len, cases
      ensures Holds(p) && Tracks(start, moves, p, active, nsent)
      ensures Remaining(p, waiting) == Remaining(p0, waiting0)
      ensures len + active < old(len) + active0
    {
      var chosen := AnyCase(active0, waiting0 != multiset{});
      if chosen == 0 {
        var ch :| ch in waiting0;
        WaitingHasCase(p0, waiting0, ch);
        var index := FindCase(ch);
        active, moves, p := DropCase(index, active0, nsent0, start, moves0, p0);
        nsent, waiting := nsent0, waiting0 - multiset{ch};
        OneLessWaits(p0, p, waiting0, ch);
      } else {
        active, nsent, moves, p := SendOn(chosen, active0, nsent0, start, moves0, p0);
        waiting := waiting0;
      }
    }

    /** A removal that is done no longer waits. */
    static lemma OneLessWaits(p0: Progress, p: Progress, waiting: multiset<Channel>, ch: Channel)
      requires p.lost + p.servedAndRemoved == p0.lost + p0.servedAndRemoved + multiset{ch} && ch in waiting
      ensures p.lost + p.servedAndRemoved + (waiting - multiset{ch}) == p0.lost + p0.servedAndRemoved + waiting
    {
      assert (waiting - multiset{ch}) + multiset{ch} == waiting;
    }

    /** A removal that waits for a channel of the case list finds it there. */
    static lemma WaitingHasCase(p: Progress, waiting: multiset<Channel>, ch: Channel)
      requires Conserves(p) && p.lost + p.servedAndRemoved + waiting <= p.initial && ch in waiting
      ensures ch in Subs(p.cases, |p.cases|)
    {
      assert (p.lost + p.servedAndRemoved + waiting)[ch] <= p.initial[ch];
    }

    /** A send on active case `i` succeeded. */
    method SendOn(i: nat, active0: nat, nsent0: nat, ghost start: Progress, ghost moves0: seq<Move>, ghost p0: Progress)
      returns (active: nat, nsent: nat, ghost moves: seq<Move>, ghost p: Progress)
      requires Holds(p0) && Tracks(start, moves0, p0, active0, nsent0) && FIRST_SUB_SEND_CASE <= i < active0
      modifies cases
      ensures Holds(p) && Tracks(start, moves, p, active, nsent) && active == active0 - 1
      ensures p.lost == p0.lost && p.servedAndRemoved == p0.servedAndRemoved
    {
      TracksStep(start, moves0, p0, active0, nsent0, Sent(i));
      moves, p := moves0 + [Sent(i)], Apply(p0, Sent(i));
      Deactivate(active0, i);
      active, nsent := active0 - 1, nsent0 + 1;
    }

    /** Case `index` is deleted during a Send, shrinking the active prefix if it was in it. */
    method DropCase(
      index: nat, active0: nat, ghost nsent: nat, ghost start: Progress, ghost moves0: seq<Move>, ghost p0: Progress)
      returns (active: nat, ghost moves: seq<Move>, ghost p: Progress)
      requires Holds(p0) && Tracks(start, moves0, p0, active0, nsent) && active0 > FIRST_SUB_SEND_CASE
      requires FIRST_SUB_SEND_CASE <= index < len
      modifies this`len, cases
      ensures Holds(p) && Tracks(start, moves, p, active, nsent)
      ensures p.lost + p.servedAndRemoved == p0.lost + p0.servedAndRemoved + multiset{old(cases[index])}
      ensures len + active < old(len) + active0
    {
      TracksStep(start, moves0, p0, active0, nsent, Dropped(index));
      moves, p := moves0 + [Dropped(index)], Apply(p0, Dropped(index));
      Delete(index);
      active := if index < active0 then active0 - 1 else active0;
    }

    /** The select may choose the receive case when a removal waits, or any active case. */
    method AnyCase(active: nat, removalWaits: bool) returns (chosen: nat)
      requires active > FIRST_SUB_SEND_CASE
      ensures chosen < active && (chosen == 0 ==> removalWaits)
    {
      chosen :| chosen < active && (chosen == 0 ==> removalWaits) by {
        assert 1 < active;
      }
    }
  }
}
