/**
  The warm-started Newton square root of `math_helper.go`.

  The cached pair is process-wide mutable state, so it is a class here. Arithmetic is
  uint64: the one addition that can wrap is written with its wrap-around, and a division
  by zero is an outcome (the run-time panic of the original), not a precondition.
 */
module SquareRoot {

  const TWO_TO_THE_64: nat := 0x1_0000_0000_0000_0000
  const MAX_UINT64: uint64 := 0xFFFF_FFFF_FFFF_FFFF

  type uint64 = n: nat | n < TWO_TO_THE_64

  datatype Outcome = Root(value: uint64) | DividedByZero

  /** The cached pair as a value. */
  datatype Cache = Cache(squareRoot: uint64, balance: uint64)

  const INITIAL_CACHE := Cache(126491106, 15999999897103236)

  predicate IsFloorRoot(balance: nat, root: nat) {
    root * root <= balance < (root + 1) * (root + 1)
  }

  /** The cached root is the floor square root of the cached, non-zero balance. */
  predicate Healthy(c: Cache) {
    c.balance > 0 && IsFloorRoot(c.balance, c.squareRoot)
  }

  /** What a caller is promised. */
  predicate Correct(balance: uint64, outcome: Outcome) {
    outcome.Root? && IsFloorRoot(balance, outcome.value)
  }

  /** The one healthy situation in which `squareRoot + val` wraps around uint64. */
  predicate Trap(cachedBalance: uint64, balance: uint64) {
    1 <= cachedBalance <= 3 && balance == MAX_UINT64
  }

  /**
    The input/output relation of one call, from a healthy cache and from the broken
    cache (root zero) that a trapped call leaves behind.
   */
  predicate Call(c: Cache, balance: uint64, c': Cache, outcome: Outcome) {
    if balance == 0 then
      c' == c && outcome == Root(0)
    else if c.squareRoot == 0 then
      if balance == c.balance
      then c' == c && outcome == Root(0)
      else c' == c.(balance := balance) && outcome == DividedByZero
    else if Trap(c.balance, balance) then
      c' == Cache(0, balance) && outcome == DividedByZero
    else
      && Correct(balance, outcome)
      && c' == Cache(outcome.value, balance)
  }

  lemma FloorRootIsUnique(balance: nat, r: nat, t: nat)
    requires IsFloorRoot(balance, r) && IsFloorRoot(balance, t)
    ensures r == t
  {
    if r < t {
      SquareIsMonotone(r + 1, t);
    } else if t < r {
      SquareIsMonotone(t + 1, r);
    }
  }

  /** Newton's step never lands below the floor root, whatever the starting point. */
  lemma NewtonStepStaysAbove(balance: nat, s: nat)
    requires s > 0
    ensures var t := (s + balance / s) / 2; balance < (t + 1) * (t + 1)
  {
    var q := balance / s;
    var t := (s + q) / 2;
    assert balance < s * (q + 1);
    var u := 2 * (t + 1);
    assert u >= s + (q + 1);
    SquareIsMonotone(s + (q + 1), u);
    assert (s + (q + 1)) * (s + (q + 1)) - 4 * (s * (q + 1)) == (s - (q + 1)) * (s - (q + 1));
    SquareIsNonNegative(s - (q + 1));
    assert u * u == 4 * ((t + 1) * (t + 1));
  }

  lemma SquareIsMonotone(a: nat, b: nat)
    requires a <= b
    ensures a * a <= b * b
  {
    assert a * a <= a * b <= b * b;
  }

  lemma SquareIsNonNegative(a: int)
    ensures a * a >= 0
  {}

  /** `s <= b/s` is the test `s*s <= b`. */
  lemma QuotientTest(balance: nat, s: nat)
    requires s > 0
    ensures s <= balance / s <==> s * s <= balance
  {
    var q := balance / s;
    assert balance == s * q + balance % s;
    if s <= q {
      assert s * s <= s * q;
    } else {
      assert s * (q + 1) <= s * s;
    }
  }

  /** The quotient of the loop, kept behind a name so that its proof needs no division. */
  predicate IsQuotient(balance: nat, s: nat, val: nat) {
    s > 0 && val == balance / s
  }

  /** Everything the loop needs about one Newton step. */
  lemma NewtonStep(balance: nat, s: nat, val: nat, t: nat)
    requires balance > 0 && IsQuotient(balance, s, val) && t == (s + val) / 2
    ensures t > 0
    ensures val < s ==> t < s
    ensures forall val' :: IsQuotient(balance, t, val') ==> (t <= val' <==> IsFloorRoot(balance, t))
  {
    NewtonStepStaysAbove(balance, s);
    QuotientTest(balance, t);
  }

  /** With a root of at least two the first sum cannot wrap. */
  lemma LargeRootSum(cachedBalance: uint64, s: uint64, balance: uint64)
    requires s >= 2 && s * s <= cachedBalance
    ensures cachedBalance >= 4
    ensures s + balance / s < TWO_TO_THE_64
  {
    SquareIsMonotone(2, s);
    if s >= 0x1_0000_0000 {
      SquareIsMonotone(0x1_0000_0000, s);
    }
    QuotientBound(balance, s, 2);
  }

  lemma QuotientBound(balance: nat, s: nat, d: nat)
    requires s >= d > 0
    ensures d * (balance / s) <= balance
  {
    var q := balance / s;
    assert balance == s * q + balance % s;
    assert d * q <= s * q;
  }

  /** From a healthy cache the first sum wraps exactly in the trap. */
  lemma FirstSumWraps(c: Cache, balance: uint64)
    requires Healthy(c) && balance > 0
    ensures c.squareRoot > 0
    ensures if Trap(c.balance, balance)
            then c.squareRoot + balance / c.squareRoot == TWO_TO_THE_64
            else c.squareRoot + balance / c.squareRoot < TWO_TO_THE_64
  {
    if c.squareRoot >= 2 {
      LargeRootSum(c.balance, c.squareRoot, balance);
    } else {
      assert c.squareRoot == 1;
    }
  }

  /** `(a + b) / 2` as uint64 computes it. */
  function HalfWrappedSum(a: uint64, b: uint64): (h: uint64)
    ensures a + b < TWO_TO_THE_64 ==> h == (a + b) / 2
    ensures a + b == TWO_TO_THE_64 ==> h == 0
    ensures h < TWO_TO_THE_64 / 2
  {
    ((a + b) % TWO_TO_THE_64) / 2
  }

  class SquareRootCache {
    var squareRoot: uint64
    var balance: uint64

    function View(): Cache
      reads this
    {
      Cache(squareRoot, balance)
    }

    constructor ()
      ensures View() == INITIAL_CACHE && Healthy(View())
    {
      squareRoot, balance := 126491106, 15999999897103236;
    }

    method CachedSquareRoot(b: uint64) returns (outcome: Outcome)
      requires Healthy(View()) || squareRoot == 0
      modifies this
      ensures Call(old(View()), b, View(), outcome)
    {
      if b == 0 {
        return Root(0);
      }
      if b == balance {
        return Root(squareRoot);
      }
      if squareRoot != 0 {
        FirstSumWraps(View(), b);
      }
      balance := b;
      if squareRoot == 0 {
        return DividedByZero;
      }
      outcome := Newton(b);
    }

    static method Quotient(b: uint64, s: uint64) returns (val: uint64)
      requires s > 0
      ensures IsQuotient(b, s, val)
    {
      QuotientBound(b, s, 1);
      val := b / s;
    }

    /** The `for` loop of the original: iterate until the quotient catches up with the root. */
    method Newton(b: uint64) returns (outcome: Outcome)
      requires b > 0 && squareRoot > 0
      requires forall val :: IsQuotient(b, squareRoot, val) ==> squareRoot + val <= TWO_TO_THE_64
      modifies this`squareRoot
      ensures if IsQuotient(b, old(squareRoot), TWO_TO_THE_64 - old(squareRoot))
              then outcome == DividedByZero && squareRoot == 0
              else outcome == Root(squareRoot) && IsFloorRoot(b, squareRoot)
    {
      var val: uint64 := Quotient(b, squareRoot);
      ghost var wraps := squareRoot + val == TWO_TO_THE_64;
      ghost var first := true;
      while true
        invariant IsQuotient(b, squareRoot, val)
        invariant first ==> squareRoot + val <= TWO_TO_THE_64 && wraps == (squareRoot + val == TWO_TO_THE_64)
        invariant !first ==> val < squareRoot < TWO_TO_THE_64 / 2 && !wraps
        decreases first, squareRoot
      {
        ghost var s := squareRoot;
        squareRoot := HalfWrappedSum(squareRoot, val);
        if s + val < TWO_TO_THE_64 {
          NewtonStep(b, s, val, squareRoot);
        }
        if squareRoot == 0 {
          return DividedByZero;
        }
        val := Quotient(b, squareRoot);
        first := false;
        if squareRoot <= val {
          return Root(squareRoot);
        }
      }
    }
  }
}
