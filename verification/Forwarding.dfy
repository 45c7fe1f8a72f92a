/** The client subscription's forwarding loop (`ClientSubscription.forward` in `subscription.go`). */
module Forwarding {
  import opened Options

  type Value = nat

  const MAX_CLIENT_SUBSCRIPTION_BUFFER: nat := 20000

  /** What arrives on `sub.quit`. */
  datatype QuitReason = NilError | Unsubscribed | OtherError

  /** The case a select chose; a received message may fail to decode. */
  datatype Choice = Quit(reason: QuitReason) | In(value: Option<Value>) | Out

  datatype Exit = QuitNil | QuitUnsubscribed | QuitError | BadMessage | Overflow

  datatype State = State(buffer: seq<Value>, received: seq<Value>, sent: seq<Value>, exit: Option<Exit>)

  const START: State := State([], [], [], None)

  /** One round of the loop. The send case is only offered when something is buffered. */
  function Step(s: State, c: Choice): State {
    if s.exit.Some? then s
    else
      match c
      case Quit(NilError) => s.(exit := Some(QuitNil))
      case Quit(Unsubscribed) => s.(exit := Some(QuitUnsubscribed))
      case Quit(OtherError) => s.(exit := Some(QuitError))
      case In(None) => s.(exit := Some(BadMessage))
      case In(Some(v)) =>
        if |s.buffer| == MAX_CLIENT_SUBSCRIPTION_BUFFER then s.(exit := Some(Overflow))
        else s.(buffer := s.buffer + [v], received := s.received + [v])
      case Out => if s.buffer == [] then s else s.(sent := s.sent + [s.buffer[0]], buffer := s.buffer[1..])
  }

  function Run(script: seq<Choice>): State {
    if script == [] then START else Step(Run(script[..|script| - 1]), script[|script| - 1])
  }

  // The loop told from the choices alone.

  /** The values that arrived in the script. */
  function Arrivals(script: seq<Choice>): seq<Value> {
    if script == [] then []
    else
      var n := |script| - 1;
      match script[n]
      case In(Some(v)) => Arrivals(script[..n]) + [v]
      case _ => Arrivals(script[..n])
  }

  /** How many values have been taken by the receiving channel. */
  function Taken(script: seq<Choice>): (k: nat)
    ensures k <= |Arrivals(script)|
  {
    if script == [] then 0
    else
      var n := |script| - 1;
      if script[n].Out? && Taken(script[..n]) < |Arrivals(script[..n])| then Taken(script[..n]) + 1
      else Taken(script[..n])
  }

  /** Choice `i` ends the loop: a quit, a message that does not decode, or one value more than 20000 untaken ones. */
  predicate EndsAt(script: seq<Choice>, i: int)
    requires 0 <= i < |script|
  {
    match script[i]
    case Quit(_) => true
    case In(None) => true
    case In(Some(_)) => |Arrivals(script[..i])| - Taken(script[..i]) >= 20000
    case Out => false
  }

  predicate NoEnd(script: seq<Choice>, n: nat)
    requires n <= |script|
  {
    forall i {:trigger EndsAt(script, i)} :: 0 <= i < n ==> !EndsAt(script, i)
  }

  /** Choice `i` is the one that ends the loop. */
  predicate FirstEnd(script: seq<Choice>, i: nat) {
    i < |script| && EndsAt(script, i) && NoEnd(script, i)
  }

  function ExitFor(c: Choice): Exit {
    match c
    case Quit(NilError) => QuitNil
    case Quit(Unsubscribed) => QuitUnsubscribed
    case Quit(OtherError) => QuitError
    case In(None) => BadMessage
    case _ => Overflow
  }

  lemma NoEndPrefix(script: seq<Choice>, n: nat, m: nat)
    requires m <= n <= |script|
    ensures NoEnd(script[..n], m) <==> NoEnd(script, m)
  {
    forall i | 0 <= i < m ensures EndsAt(script[..n], i) <==> EndsAt(script, i) {
      assert script[..n][..i] == script[..i];
    }
  }

  /** Until something ends it, the loop has sent what was taken and buffers the rest of what arrived, in order. */
  lemma {:induction false} RunsWithoutEnd(script: seq<Choice>)
    requires NoEnd(script, |script|)
    ensures Run(script) == State(Arrivals(script)[Taken(script)..], Arrivals(script),
                                 Arrivals(script)[..Taken(script)], None)
    ensures |Arrivals(script)| - Taken(script) <= 20000
  {
    if script != [] {
      var n := |script| - 1;
      NoEndPrefix(script, n, n);
      RunsWithoutEnd(script[..n]);
      assert !EndsAt(script, n);
      Shifts(Arrivals(script[..n]), Taken(script[..n]));
    }
  }

  /** One value more arrived, or was taken. */
  lemma Shifts(a: seq<Value>, k: nat)
    requires k <= |a|
    ensures forall v :: (a + [v])[k..] == a[k..] + [v] && (a + [v])[..k] == a[..k]
    ensures k < |a| ==> a[k..] != [] && a[k..][0] == a[k] && a[k..][1..] == a[k + 1..] && a[..k] + [a[k]] == a[..k + 1]
  {}

  /** The first choice that ends the loop leaves what was sent and buffered before, and decides the exit. */
  lemma EndsWith(script: seq<Choice>, i: nat)
    requires FirstEnd(script, i)
    ensures Run(script) == Run(script[..i]).(exit := Some(ExitFor(script[i])))
  {
    NoEndPrefix(script, i, i);
    RunsWithoutEnd(script[..i]);
    assert script[..i + 1][..i] == script[..i];
    ExitIsFinal(script, i + 1);
  }

  predicate AsksFor(c: Choice) {
    c != Quit(NilError) && c != Quit(OtherError)
  }

  /** The loop ends, and neither by a nil error nor by an error other than Unsubscribe. */
  predicate AsksToUnsubscribe(script: seq<Choice>) {
    exists i: nat {:trigger FirstEnd(script, i)} :: i < |script| && FirstEnd(script, i) && AsksFor(script[i])
  }

  /** One round of a loop that has not ended. */
  lemma RoundFacts(script: seq<Choice>, i: nat)
    requires i < |script| && NoEnd(script, i)
    ensures Run(script[..i + 1]) == Step(Run(script[..i]), script[i]) && Run(script[..i]).exit.None?
    ensures EndsAt(script, i) <==> Step(Run(script[..i]), script[i]).exit.Some?
    ensures if EndsAt(script, i) then FirstEnd(script, i) else NoEnd(script, i + 1)
  {
    assert script[..i + 1][..i] == script[..i];
    NoEndPrefix(script, i, i);
    RunsWithoutEnd(script[..i]);
  }

  /**
    The loop over any sequence of choices, up to its exit or the end of the script. It asks for an unsubscription
    on the server exactly when it ends by Unsubscribe, a bad message or an overflow, not by another quit.
   */
  method Forward(script: seq<Choice>)
    returns (sent: seq<Value>, buffer: seq<Value>, exit: Option<Exit>, unsubscribe: bool)
    ensures State(buffer, Run(script).received, sent, exit) == Run(script)
    ensures unsubscribe <==> AsksToUnsubscribe(script)
  {
    sent, buffer, exit, unsubscribe := [], [], None, false;
    var i := 0;
    while i < |script| && exit.None?
      invariant 0 <= i <= |script|
      invariant State(buffer, Run(script[..i]).received, sent, exit) == Run(script[..i])
      invariant exit.None? ==> NoEnd(script, i) && !unsubscribe
      invariant exit.Some? ==> 0 < i && FirstEnd(script, i - 1)
      invariant exit.Some? ==> (unsubscribe <==> AsksFor(script[i - 1]))
    {
      RoundFacts(script, i);
      match script[i] {
        case Quit(reason) =>
          if reason.Unsubscribed? {
            exit, unsubscribe := Some(QuitUnsubscribed), true;
          } else {
            exit, unsubscribe := Some(if reason.NilError? then QuitNil else QuitError), false;
          }
        case In(value) =>
          if value.None? {
            exit, unsubscribe := Some(BadMessage), true;
          } else if |buffer| == MAX_CLIENT_SUBSCRIPTION_BUFFER {
            exit, unsubscribe := Some(Overflow), true;
          } else {
            buffer := buffer + [value.value];
          }
        case Out =>
          if |buffer| > 0 {
            sent, buffer := sent + [buffer[0]], buffer[1..];
          }
      }
      i := i + 1;
    }
    ExitIsFinal(script, i);
    OnlyOneEnd(script, i, exit.Some?);
  }

  /** At most one choice ends the loop. */
  lemma OnlyOneEnd(script: seq<Choice>, i: nat, ended: bool)
    requires i <= |script|
    requires if ended then 0 < i && FirstEnd(script, i - 1) else i == |script| && NoEnd(script, i)
    ensures forall j: nat {:trigger FirstEnd(script, j)} :: FirstEnd(script, j) ==> ended && j == i - 1
  {
    forall j: nat | FirstEnd(script, j) ensures ended && j == i - 1 {
      assert EndsAt(script, j);
    }
  }

  lemma {:induction false} ExitIsFinal(script: seq<Choice>, i: nat)
    requires i <= |script| && (i == |script| || Run(script[..i]).exit.Some?)
    ensures Run(script) == Run(script[..i])
    decreases |script| - i
  {
    if i == |script| {
      assert script[..i] == script;
    } else {
      assert script[..i + 1][..i] == script[..i];
      ExitIsFinal(script, i + 1);
    }
  }

  /** Nothing is lost or out of order, and an overflow finds the buffer full. */
  predicate InOrder(s: State) {
    && s.received == s.sent + s.buffer
    && |s.buffer| <= 20000
    && (s.exit == Some(Overflow) ==> |s.buffer| == 20000)
  }

  /**
    Over every run: what was received is what was sent followed by the buffer, so values are
    forwarded in order, none lost or repeated while the loop runs; the buffer never exceeds
    its limit; and the loop gives up for overflow only with a full buffer.
   */
  lemma {:induction false} ForwardsInOrder(script: seq<Choice>)
    ensures InOrder(Run(script))
  {
    if script != [] {
      var n := |script| - 1;
      ForwardsInOrder(script[..n]);
      StepKeepsOrder(Run(script[..n]), script[n]);
    }
  }

  lemma StepKeepsOrder(s: State, c: Choice)
    requires InOrder(s)
    ensures InOrder(Step(s, c))
  {
    if s.buffer != [] {
      assert s.buffer == [s.buffer[0]] + s.buffer[1..];
    }
  }

  /** A loop that has not exited has received everything that arrived. */
  lemma {:induction false} ReceivesEverything(script: seq<Choice>)
    ensures Run(script).exit.None? ==> Run(script).received == Arrivals(script)
  {
    if script != [] {
      ReceivesEverything(script[..|script| - 1]);
    }
  }
}
