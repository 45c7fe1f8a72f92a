/** Sequences of `CachedSquareRoot` calls: when all of them are right, and the one way they go wrong. */
module SquareRootRuns {
  import opened SquareRoot

  /** The balance the cache remembers after a sequence of calls: the last non-zero one. */
  function LastBalance(start: uint64, balances: seq<uint64>): uint64 {
    if balances == [] then start
    else
      var last := balances[|balances| - 1];
      if last == 0 then LastBalance(start, balances[..|balances| - 1]) else last
  }

  /** Call `i` asks for 2^64-1 while the last non-zero balance was 1, 2 or 3. */
  predicate TrapsAt(start: uint64, balances: seq<uint64>, i: nat)
    requires i < |balances|
  {
    Trap(LastBalance(start, balances[..i]), balances[i])
  }

  predicate IsRun(caches: seq<Cache>, balances: seq<uint64>, outcomes: seq<Outcome>) {
    && |caches| == |balances| + 1
    && |outcomes| == |balances|
    && forall i :: 0 <= i < |balances| ==> Call(caches[i], balances[i], caches[i + 1], outcomes[i])
  }

  /** One step of a run keeps the cache healthy exactly when it is correct and avoids the trap. */
  lemma CallFromHealthy(c: Cache, balance: uint64, c': Cache, outcome: Outcome)
    requires Healthy(c) && Call(c, balance, c', outcome)
    ensures Correct(balance, outcome) <==> !Trap(c.balance, balance)
    ensures Correct(balance, outcome) ==>
      Healthy(c') && c'.balance == (if balance == 0 then c.balance else balance)
  {
    assert c.squareRoot != 0;
  }

  lemma {:induction false} HealthyPrefix(
    caches: seq<Cache>, balances: seq<uint64>, outcomes: seq<Outcome>, k: nat)
    requires IsRun(caches, balances, outcomes) && Healthy(caches[0])
    requires k <= |balances|
    requires forall i :: 0 <= i < k ==> Correct(balances[i], outcomes[i]) || !TrapsAt(caches[0].balance, balances, i)
    ensures Healthy(caches[k]) && caches[k].balance == LastBalance(caches[0].balance, balances[..k])
    ensures forall i :: 0 <= i < k ==> Correct(balances[i], outcomes[i]) && !TrapsAt(caches[0].balance, balances, i)
  {
    if k > 0 {
      var j := k - 1;
      HealthyPrefix(caches, balances, outcomes, j);
      assert Call(caches[j], balances[j], caches[j + 1], outcomes[j]);
      CallFromHealthy(caches[j], balances[j], caches[k], outcomes[j]);
      assert balances[..k][..j] == balances[..j];
    }
  }

  /**
    Over every sequence of calls from a healthy cache, all answers are floor square roots
    if and only if no call asks for 2^64-1 right after (ignoring zero balances) 1, 2 or 3.
   */
  lemma RunIsCorrectIff(caches: seq<Cache>, balances: seq<uint64>, outcomes: seq<Outcome>)
    requires IsRun(caches, balances, outcomes) && Healthy(caches[0])
    ensures (forall i :: 0 <= i < |balances| ==> Correct(balances[i], outcomes[i]))
       <==> (forall i :: 0 <= i < |balances| ==> !TrapsAt(caches[0].balance, balances, i))
  {
    if || (forall i :: 0 <= i < |balances| ==> Correct(balances[i], outcomes[i]))
       || (forall i :: 0 <= i < |balances| ==> !TrapsAt(caches[0].balance, balances, i))
    {
      HealthyPrefix(caches, balances, outcomes, |balances|);
    }
  }

  /** The promised range: every run whose balances are below 2^64-1 is correct throughout. */
  lemma RunBelowMaximumIsCorrect(caches: seq<Cache>, balances: seq<uint64>, outcomes: seq<Outcome>)
    requires IsRun(caches, balances, outcomes) && caches[0] == INITIAL_CACHE
    requires forall b :: b in balances ==> b < MAX_UINT64
    ensures forall i :: 0 <= i < |balances| ==> Correct(balances[i], outcomes[i])
  {
    forall i | 0 <= i < |balances| ensures balances[i] < MAX_UINT64 {
      assert balances[i] in balances;
    }
    RunIsCorrectIff(caches, balances, outcomes);
  }

  /** The trap is reachable from the initial cache, and it poisons the calls after it. */
  lemma TrapIsReachable(caches: seq<Cache>, outcomes: seq<Outcome>)
    requires IsRun(caches, [1, MAX_UINT64, MAX_UINT64, 9], outcomes) && caches[0] == INITIAL_CACHE
    ensures outcomes[1] == DividedByZero
    ensures outcomes[2] == Root(0)
    ensures outcomes[3] == DividedByZero
  {
    var bs: seq<uint64> := [1, MAX_UINT64, MAX_UINT64, 9];
    assert Call(caches[0], bs[0], caches[1], outcomes[0]);
    FloorRootIsUnique(1, 1, outcomes[0].value);
    assert Call(caches[1], bs[1], caches[2], outcomes[1]);
    assert Call(caches[2], bs[2], caches[3], outcomes[2]);
    assert Call(caches[3], bs[3], caches[4], outcomes[3]);
  }
}
