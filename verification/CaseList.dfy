/**
  The select-case lists of the event feed (`feed.go`): `find`, `delete` and `deactivate`, and what they
  do to the multiset of subscribed channels.
 */
module CaseList {
  import opened Options

  /** Channel identities; the feed's own `removeSub` channel sits at index 0. */
  datatype Channel = RemoveSub | Subscriber(id: nat)

  type Cases = seq<Channel>

  const FIRST_SUB_SEND_CASE: nat := 1

  /** A case list of the feed: the receive case first, then subscribers. */
  predicate IsCaseList(cs: Cases) {
    && |cs| >= FIRST_SUB_SEND_CASE
    && cs[0] == RemoveSub
    && forall i :: FIRST_SUB_SEND_CASE <= i < |cs| ==> cs[i].Subscriber?
  }

  /** The channels subscribed among the first `m` cases. */
  function Subs(cs: Cases, m: nat): multiset<Channel>
    requires FIRST_SUB_SEND_CASE <= m <= |cs|
  {
    multiset(cs[FIRST_SUB_SEND_CASE..m])
  }

  /** Index of the first case with this channel, or -1. */
  function Find(cs: Cases, ch: Channel): (i: int)
    ensures -1 <= i < |cs|
    ensures i >= 0 ==> cs[i] == ch && ch !in cs[..i]
    ensures i == -1 <==> ch !in cs
  {
    FindFrom(cs, ch, 0)
  }

  function FindFrom(cs: Cases, ch: Channel, k: nat): (i: int)
    requires k <= |cs| && ch !in cs[..k]
    ensures -1 <= i < |cs|
    ensures i >= 0 ==> cs[i] == ch && ch !in cs[..i]
    ensures i == -1 <==> ch !in cs
    decreases |cs| - k
  {
    if k == |cs| then
      assert cs[..k] == cs;
      -1
    else if cs[k] == ch then k
    else
      assert cs[..k + 1] == cs[..k] + [cs[k]];
      FindFrom(cs, ch, k + 1)
  }

  function DeleteAt(cs: Cases, i: nat): Cases
    requires i < |cs|
  {
    cs[..i] + cs[i + 1..]
  }

  function Swap(cs: Cases, i: nat, j: nat): (r: Cases)
    requires i < |cs| && j < |cs|
    ensures |r| == |cs|
  {
    cs[i := cs[j]][j := cs[i]]
  }

  /** `deactivate` moves one active channel out of the active prefix. */
  lemma DeactivateActive(cs: Cases, m: nat, i: nat)
    requires m <= |cs| && FIRST_SUB_SEND_CASE <= i < m
    ensures Subs(Swap(cs, i, m - 1), m - 1) + multiset{cs[i]} == Subs(cs, m)
  {
    var r := Swap(cs, i, m - 1);
    SwapPrefix(cs, i, m - 1, m);
    DropLast(r, m, cs[i]);
  }

  lemma SwapIsCaseList(cs: Cases, i: nat, j: nat)
    requires IsCaseList(cs) && 1 <= i <= j < |cs|
    ensures IsCaseList(Swap(cs, i, j))
  {}

  lemma SwapPrefix(cs: Cases, i: nat, j: nat, m: nat)
    requires 1 <= i <= j < m <= |cs|
    ensures Subs(Swap(cs, i, j), m) == Subs(cs, m)
  {
    SwapSubs(cs[1..m], i - 1, j - 1);
    assert Swap(cs, i, j)[1..m] == Swap(cs[1..m], i - 1, j - 1);
  }

  lemma DropLast(cs: Cases, m: nat, last: Channel)
    requires 1 < m <= |cs| && cs[m - 1] == last
    ensures Subs(cs, m - 1) + multiset{last} == Subs(cs, m)
  {
    assert cs[1..m] == cs[1..m - 1] + [last];
  }

  lemma SwapSubs(s: Cases, i: nat, j: nat)
    requires i <= j < |s|
    ensures multiset(Swap(s, i, j)) == multiset(s)
  {
    if i == j {
      assert Swap(s, i, j) == s;
    } else {
      assert s == s[..i] + [s[i]] + s[i + 1..j] + [s[j]] + s[j + 1..];
      assert Swap(s, i, j) == s[..i] + [s[j]] + s[i + 1..j] + [s[i]] + s[j + 1..];
    }
  }

  lemma DeleteIsCaseList(cs: Cases, i: nat)
    requires IsCaseList(cs) && FIRST_SUB_SEND_CASE <= i < |cs|
    ensures IsCaseList(DeleteAt(cs, i))
  {}

  /** Deleting a case behind the active prefix leaves the prefix alone. */
  lemma DeleteBehind(cs: Cases, m: nat, i: nat)
    requires FIRST_SUB_SEND_CASE <= m <= i < |cs|
    ensures Subs(DeleteAt(cs, i), m) == Subs(cs, m)
  {
    assert DeleteAt(cs, i)[1..m] == cs[1..m];
  }

  /** Deleting a case of a prefix removes its channel once. */
  lemma DeletePrefix(cs: Cases, m: nat, i: nat)
    requires 1 <= i < m <= |cs|
    ensures Subs(DeleteAt(cs, i), m - 1) + multiset{cs[i]} == Subs(cs, m)
  {
    var r := DeleteAt(cs, i);
    assert r[1..m - 1] == cs[1..i] + cs[i + 1..m];
    assert cs[1..m] == cs[1..i] + [cs[i]] + cs[i + 1..m];
  }

  /** Merging the inbox adds its channels. */
  lemma MergeSubs(cs: Cases, inbox: Cases)
    requires IsCaseList(cs) && forall i :: 0 <= i < |inbox| ==> inbox[i].Subscriber?
    ensures IsCaseList(cs + inbox)
    ensures Subs(cs + inbox, |cs + inbox|) == Subs(cs, |cs|) + multiset(inbox)
  {
    var r := cs + inbox;
    assert r[1..|r|] == cs[1..|cs|] + inbox;
  }

  /** A channel subscribed in the list is found at a subscriber index. */
  lemma FindsSubscriber(cs: Cases, ch: Channel)
    requires IsCaseList(cs) && ch in Subs(cs, |cs|)
    ensures Find(cs, ch) >= FIRST_SUB_SEND_CASE
  {
    assert ch in cs[1..|cs|];
    assert ch in cs;
    assert ch.Subscriber?;
  }

  lemma InboxDelete(inbox: Cases, i: nat)
    requires i < |inbox|
    ensures multiset(DeleteAt(inbox, i)) + multiset{inbox[i]} == multiset(inbox)
  {
    assert inbox == inbox[..i] + [inbox[i]] + inbox[i + 1..];
  }

  /**
    One Send in progress: the case list and its active prefix, the channels present after
    the merge, the sends so far in order, the channels removed while still active, and
    those removed after they had been served.
   */
  datatype Progress = Progress(
    cases: Cases,
    active: nat,
    initial: multiset<Channel>,
    delivered: seq<Channel>,
    lost: multiset<Channel>,
    servedAndRemoved: multiset<Channel>)

  predicate InShape(p: Progress) {
    IsCaseList(p.cases) && FIRST_SUB_SEND_CASE <= p.active <= |p.cases|
  }

  /** Every initial channel is still active, was served, or was removed while active. */
  predicate ServesOnce(p: Progress)
    requires InShape(p)
  {
    Subs(p.cases, p.active) + multiset(p.delivered) + p.lost == p.initial
  }

  /** The case list has lost exactly the removed channels. */
  predicate ForgetsOnlyRemoved(p: Progress)
    requires InShape(p)
  {
    Subs(p.cases, |p.cases|) + p.lost + p.servedAndRemoved == p.initial
  }

  /** Nothing is delivered twice, forgotten or invented: the conservation law of Send. */
  predicate Conserves(p: Progress) {
    InShape(p) && ServesOnce(p) && ForgetsOnlyRemoved(p)
  }

  /** The case list and active prefix at the start of the sending loops. */
  function Started(cs: Cases): Progress
    requires IsCaseList(cs)
  {
    Progress(cs, |cs|, Subs(cs, |cs|), [], multiset{}, multiset{})
  }

  /** A send on active case `i` went through: the case is deactivated. */
  function Deliver(p: Progress, i: nat): Progress
    requires i < p.active <= |p.cases|
  {
    p.(cases := Swap(p.cases, i, p.active - 1),
       active := p.active - 1,
       delivered := p.delivered + [p.cases[i]])
  }

  /** The channel of case `i` was received from `removeSub`: the case is deleted. */
  function Remove(p: Progress, i: nat): Progress
    requires i < |p.cases| && p.active > 0
  {
    var ch := p.cases[i];
    if i < p.active
    then p.(cases := DeleteAt(p.cases, i), active := p.active - 1, lost := p.lost + multiset{ch})
    else p.(cases := DeleteAt(p.cases, i), servedAndRemoved := p.servedAndRemoved + multiset{ch})
  }

  lemma StartedConserves(cs: Cases)
    requires IsCaseList(cs)
    ensures Conserves(Started(cs))
  {
    var nothing: seq<Channel> := [];
    assert multiset(nothing) == multiset{};
  }

  lemma DeliverConserves(p: Progress, i: nat)
    requires Conserves(p) && FIRST_SUB_SEND_CASE <= i < p.active
    ensures Conserves(Deliver(p, i))
  {
    SwapIsCaseList(p.cases, i, p.active - 1);
    DeliverServesOnce(p, i);
    DeliverForgetsNothing(p, i);
  }

  lemma DeliverServesOnce(p: Progress, i: nat)
    requires InShape(p) && ServesOnce(p) && FIRST_SUB_SEND_CASE <= i < p.active
    requires InShape(Deliver(p, i))
    ensures ServesOnce(Deliver(p, i))
  {
    var r := Swap(p.cases, i, p.active - 1);
    DeactivateActive(p.cases, p.active, i);
    MoveOne(Subs(r, p.active - 1), Subs(p.cases, p.active), p.cases[i], p.delivered, p.lost);
  }

  lemma DeliverForgetsNothing(p: Progress, i: nat)
    requires InShape(p) && ForgetsOnlyRemoved(p) && FIRST_SUB_SEND_CASE <= i < p.active
    requires InShape(Deliver(p, i))
    ensures ForgetsOnlyRemoved(Deliver(p, i))
  {
    SwapPrefix(p.cases, i, p.active - 1, |p.cases|);
  }

  lemma MoveOne(
    rest: multiset<Channel>, all: multiset<Channel>, ch: Channel, sent: seq<Channel>, lost: multiset<Channel>)
    requires rest + multiset{ch} == all
    ensures rest + multiset(sent + [ch]) + lost == all + multiset(sent) + lost
  {
    assert multiset(sent + [ch]) == multiset(sent) + multiset{ch};
  }

  lemma RemoveConserves(p: Progress, i: nat)
    requires Conserves(p) && FIRST_SUB_SEND_CASE <= i < |p.cases|
    ensures Conserves(Remove(p, i))
  {
    DeleteIsCaseList(p.cases, i);
    RemoveServesOnce(p, i);
    RemoveForgetsIt(p, i);
  }

  lemma RemoveServesOnce(p: Progress, i: nat)
    requires InShape(p) && ServesOnce(p) && FIRST_SUB_SEND_CASE <= i < |p.cases|
    requires InShape(Remove(p, i))
    ensures ServesOnce(Remove(p, i))
  {
    if i < p.active {
      DeletePrefix(p.cases, p.active, i);
      ShiftTwo(Subs(DeleteAt(p.cases, i), p.active - 1), Subs(p.cases, p.active), p.cases[i],
               multiset(p.delivered), p.lost);
    } else {
      DeleteBehind(p.cases, p.active, i);
    }
  }

  lemma RemoveForgetsIt(p: Progress, i: nat)
    requires InShape(p) && ForgetsOnlyRemoved(p) && FIRST_SUB_SEND_CASE <= i < |p.cases|
    requires InShape(Remove(p, i))
    ensures ForgetsOnlyRemoved(Remove(p, i))
  {
    var q := Remove(p, i);
    DeleteFromAll(p.cases, i, q.cases);
    ForgetOne(Subs(q.cases, |q.cases|), Subs(p.cases, |p.cases|), p, q, p.cases[i]);
  }

  lemma DeleteFromAll(cs: Cases, i: nat, r: Cases)
    requires 1 <= i < |cs| && r == DeleteAt(cs, i)
    ensures |r| >= 1 && Subs(r, |r|) + multiset{cs[i]} == Subs(cs, |cs|)
  {
    DeletePrefix(cs, |cs|, i);
  }

  lemma ForgetOne(rest: multiset<Channel>, all: multiset<Channel>, p: Progress, q: Progress, ch: Channel)
    requires rest + multiset{ch} == all && all + p.lost + p.servedAndRemoved == p.initial == q.initial
    requires (q.lost == p.lost + multiset{ch} && q.servedAndRemoved == p.servedAndRemoved)
          || (q.lost == p.lost && q.servedAndRemoved == p.servedAndRemoved + multiset{ch})
    ensures rest + q.lost + q.servedAndRemoved == q.initial
  {
    if q.lost == p.lost {
      ShiftTwo(rest, all, ch, p.lost, p.servedAndRemoved);
    } else {
      ShiftThree(rest, all, ch, p.lost, p.servedAndRemoved);
    }
  }

  lemma ShiftTwo(
    rest: multiset<Channel>, all: multiset<Channel>, ch: Channel, a: multiset<Channel>, b: multiset<Channel>)
    requires rest + multiset{ch} == all
    ensures rest + a + (b + multiset{ch}) == all + a + b
  {}

  lemma ShiftThree(
    rest: multiset<Channel>, all: multiset<Channel>, ch: Channel, a: multiset<Channel>, b: multiset<Channel>)
    requires rest + multiset{ch} == all
    ensures rest + (a + multiset{ch}) + b == all + a + b
  {}

  lemma ShiftOne(rest: multiset<Channel>, all: multiset<Channel>, ch: Channel, gone: multiset<Channel>)
    requires rest + multiset{ch} == all
    ensures rest + (gone + multiset{ch}) == all + gone
  {}

  /** One event of the sending loops: a send on case `i` or a removal of case `i`. */
  datatype Move = Sent(i: nat) | Dropped(i: nat)

  predicate Legal(p: Progress, m: Move) {
    && InShape(p)
    && p.active > FIRST_SUB_SEND_CASE
    && FIRST_SUB_SEND_CASE <= m.i < if m.Sent? then p.active else |p.cases|
  }

  function Apply(p: Progress, m: Move): Progress
    requires Legal(p, m)
  {
    if m.Sent? then Deliver(p, m.i) else Remove(p, m.i)
  }

  /** Where this schedule of sends and removals leads, if every move is possible. */
  function Outcome(start: Progress, moves: seq<Move>): Option<Progress> {
    if moves == [] then Some(start)
    else
      match Outcome(start, moves[..|moves| - 1])
      case None => None
      case Some(q) => if Legal(q, moves[|moves| - 1]) then Some(Apply(q, moves[|moves| - 1])) else None
  }

  lemma OutcomeStep(start: Progress, moves: seq<Move>, p: Progress, m: Move)
    requires Outcome(start, moves) == Some(p) && Legal(p, m)
    ensures Outcome(start, moves + [m]) == Some(Apply(p, m))
  {
    assert (moves + [m])[..|moves|] == moves;
  }

  /** Moves keep the shape, the initial channels and count the sends; each consumes a case. */
  lemma ApplyFacts(p: Progress, m: Move)
    requires Legal(p, m)
    ensures var q := Apply(p, m);
            && InShape(q) && q.initial == p.initial
            && |q.cases| + q.active < |p.cases| + p.active
            && |q.delivered| == |p.delivered| + if m.Sent? then 1 else 0
  {
    if m.Sent? {
      SwapIsCaseList(p.cases, m.i, p.active - 1);
    } else {
      DeleteIsCaseList(p.cases, m.i);
    }
  }

  /** The loop variables of a Send that has followed `moves` from `start` to `p`. */
  predicate Tracks(start: Progress, moves: seq<Move>, p: Progress, active: nat, nsent: nat) {
    Outcome(start, moves) == Some(p) && InShape(p) && active == p.active && nsent == |p.delivered|
  }

  lemma TracksStep(start: Progress, moves: seq<Move>, p: Progress, active: nat, nsent: nat, m: Move)
    requires Tracks(start, moves, p, active, nsent) && Legal(p, m)
    ensures var q := Apply(p, m);
            && Tracks(start, moves + [m], q, q.active, nsent + if m.Sent? then 1 else 0)
            && |q.cases| + q.active < |p.cases| + p.active
  {
    OutcomeStep(start, moves, p, m);
    ApplyFacts(p, m);
  }

  /** Under every schedule the conservation law holds throughout. */
  lemma {:induction false} ScheduleConserves(start: Progress, moves: seq<Move>, p: Progress)
    requires Conserves(start) && Outcome(start, moves) == Some(p)
    ensures Conserves(p) && p.initial == start.initial
  {
    if moves != [] {
      var n := |moves| - 1;
      var q := Outcome(start, moves[..n]).value;
      ScheduleConserves(start, moves[..n], q);
      if moves[n].Sent? {
        DeliverConserves(q, moves[n].i);
      } else {
        RemoveConserves(q, moves[n].i);
      }
    }
  }

  /**
    Under every schedule that ends with no active case, each channel present after the
    merge was served exactly once or was removed while still active, and the case list
    that is left has lost exactly the removed channels.
   */
  lemma EveryScheduleServesOnce(cs: Cases, moves: seq<Move>, p: Progress)
    requires IsCaseList(cs) && Outcome(Started(cs), moves) == Some(p) && p.active == FIRST_SUB_SEND_CASE
    ensures multiset(p.delivered) + p.lost == Subs(cs, |cs|)
    ensures |p.delivered| + |p.lost| == |cs| - FIRST_SUB_SEND_CASE
    ensures IsCaseList(p.cases)
    ensures Subs(p.cases, |p.cases|) + p.lost + p.servedAndRemoved == Subs(cs, |cs|)
  {
    StartedConserves(cs);
    ScheduleConserves(Started(cs), moves, p);
    assert p.cases[FIRST_SUB_SEND_CASE..FIRST_SUB_SEND_CASE] == [];
    CountsAddUp(p.delivered, p.lost, cs[FIRST_SUB_SEND_CASE..|cs|]);
  }

  lemma CountsAddUp(sent: seq<Channel>, lost: multiset<Channel>, all: seq<Channel>)
    requires multiset(sent) + lost == multiset(all)
    ensures |sent| + |lost| == |all|
  {
    assert |multiset(sent) + lost| == |multiset(all)|;
  }

  /** A channel none of whose subscriptions was removed gets the value once per subscription. */
  lemma UntouchedChannelIsServed(cs: Cases, moves: seq<Move>, p: Progress, ch: Channel)
    requires IsCaseList(cs) && Outcome(Started(cs), moves) == Some(p) && p.active == FIRST_SUB_SEND_CASE
    requires ch !in p.lost
    ensures multiset(p.delivered)[ch] == Subs(cs, |cs|)[ch]
  {
    EveryScheduleServesOnce(cs, moves, p);
    assert (multiset(p.delivered) + p.lost)[ch] == multiset(p.delivered)[ch];
  }
}
