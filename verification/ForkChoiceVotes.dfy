/**
  The available-attestation rule over runs, said about the history alone: what the cached count of a block is,
  and exactly which blocks are stable when they are inserted.
 */
module ForkChoiceVotes {
  import opened Options
  import opened ForkTree
  import opened ForkPruning
  import opened ForkChoice
  import opened ForkChoiceRuns

  /** How many validators operation `i` records for `r` that were not recorded for it before. */
  function NewAt(stores: seq<Store>, ops: seq<Op>, i: int, r: Root): nat
    requires 0 <= i < |ops| == |stores| - 1
  {
    if KnownAt(stores, ops, i) && ops[i].root == r then |ops[i].indices - stores[i].tree[r].voters| else 0
  }

  /** The validators newly recorded for `r` since the last restart, its attestation included. */
  function NewVotes(stores: seq<Store>, ops: seq<Op>, k: nat, r: Root): nat
    requires k <= |ops| == |stores| - 1
  {
    if k == 0 then 0
    else NewAt(stores, ops, k - 1, r) + if RestartsAt(stores, ops, k - 1) then 0 else NewVotes(stores, ops, k - 1, r)
  }

  /** Some attestation to `r` has been counted since the last restart. */
  predicate AttestedSince(stores: seq<Store>, ops: seq<Op>, k: nat, r: Root)
    requires k <= |ops| == |stores| - 1
  {
    exists i {:trigger KnownAt(stores, ops, i)} ::
      0 <= i < k && KnownAt(stores, ops, i) && ops[i].root == r && NoRestart(stores, ops, i + 1, k)
  }

  lemma AttestedStep(stores: seq<Store>, ops: seq<Op>, k: nat, r: Root)
    requires 0 < k <= |ops| == |stores| - 1
    ensures AttestedSince(stores, ops, k, r) <==>
            (KnownAt(stores, ops, k - 1) && ops[k - 1].root == r)
            || (AttestedSince(stores, ops, k - 1, r) && !RestartsAt(stores, ops, k - 1))
  {
    if KnownAt(stores, ops, k - 1) && ops[k - 1].root == r {
      assert NoRestart(stores, ops, k, k);
    }
    if AttestedSince(stores, ops, k - 1, r) && !RestartsAt(stores, ops, k - 1) {
      var i :| && 0 <= i < k - 1 && KnownAt(stores, ops, i) && ops[i].root == r
               && NoRestart(stores, ops, i + 1, k - 1);
      assert NoRestart(stores, ops, i + 1, k);
    }
    if AttestedSince(stores, ops, k, r) && !(KnownAt(stores, ops, k - 1) && ops[k - 1].root == r) {
      var i :| && 0 <= i < k && KnownAt(stores, ops, i) && ops[i].root == r
               && NoRestart(stores, ops, i + 1, k);
      assert i < k - 1 && NoRestart(stores, ops, i + 1, k - 1);
    }
  }

  /** The store has an entry, possibly zero, in its vote count. */
  predicate HasEntry(v: Votes, r: Root) {
    v.counts.Some? && r in v.counts.value
  }

  lemma EntryStep(s: Store, op: Op, s': Store, r: Root, restart: bool)
    requires Structure(s) && IsStep(s, op, s')
    requires var known := op.Attestation? && op.root in s.tree;
             restart <==> known && (op.slot > s.votes.slot || s.votes.counts.None?)
    ensures var known := op.Attestation? && op.root in s.tree && op.root == r;
            && (HasEntry(s'.votes, r) <==> known || (HasEntry(s.votes, r) && !restart))
            && CountOf(s'.votes, r)
               == (if known then |op.indices - s.tree[r].voters| else 0)
                  + if restart then 0 else CountOf(s.votes, r)
  {
    VotesChange(s, op, s');
  }

  /** In every run the cached count of a root is the number of validators newly recorded since the restart. */
  lemma {:induction false} CountIsNewVotes(stores: seq<Store>, ops: seq<Op>, k: nat, r: Root)
    requires IsRun(stores, ops) && k <= |ops|
    ensures CountOf(stores[k].votes, r) == NewVotes(stores, ops, k, r)
    ensures HasEntry(stores[k].votes, r) <==> AttestedSince(stores, ops, k, r)
  {
    if k > 0 {
      CountIsNewVotes(stores, ops, k - 1, r);
      RunKeepsStructure(stores, ops, k - 1);
      assert IsStep(stores[k - 1], ops[k - 1], stores[k - 1 + 1]);
      RestartIsTested(stores, ops, k - 1);
      EntryStep(stores[k - 1], ops[k - 1], stores[k], r, RestartsAt(stores, ops, k - 1));
      AttestedStep(stores, ops, k, r);
    }
  }

  /**
    Over every run: a block inserted after genesis on a known parent is stable exactly when at least 256
    validators have been newly recorded for the parent since the count last restarted, or the parent has had
    no attestation since then and is at slot 0. Before genesis it is not stable.
   */
  lemma StableExactlyWhen(stores: seq<Store>, ops: seq<Op>, k: nat)
    requires IsRun(stores, ops) && k < |ops| && ops[k].Insert?
    requires ops[k].block.root !in stores[k].tree && ops[k].block.parent in stores[k].tree
    ensures var b := ops[k].block;
            && b.root in stores[k + 1].tree
            && (stores[k + 1].tree[b.root].stable <==>
                  && !ops[k].beforeGenesis
                  && if AttestedSince(stores, ops, k, b.parent) then NewVotes(stores, ops, k, b.parent) >= 256
                     else stores[k].tree[b.parent].slot == 0)
  {
    assert IsStep(stores[k], ops[k], stores[k + 1]);
    CountIsNewVotes(stores, ops, k, ops[k].block.parent);
  }

  /** What one operation does to the recorded validators of a block that stays in the store. */
  lemma VotersStep(s: Store, op: Op, s': Store, r: Root)
    requires Structure(s) && IsStep(s, op, s') && r in s.tree && r in s'.tree
    ensures s'.tree[r].voters == s.tree[r].voters + if op.Attestation? && op.root == r then op.indices else {}
  {
    match op
    case InvalidPayload(x) =>
      if x in s.tree && s.tree[x].parent.Some? {
        RemoveCuts(s.tree, x);
        assert KeepsNode(s.tree, s'.tree, None, r);
      }
    case _ =>
  }

  /** The block is in the store from `lo` to `hi`. */
  predicate StaysFrom(stores: seq<Store>, lo: nat, hi: nat, r: Root)
    requires hi < |stores|
  {
    forall i {:trigger stores[i]} :: lo <= i <= hi ==> r in stores[i].tree
  }

  /** While a block stays, what is newly recorded for it is the growth of its set of validators. */
  lemma {:induction false} NewVotesAreDistinct(stores: seq<Store>, ops: seq<Op>, lo: nat, k: nat, r: Root)
    requires IsRun(stores, ops) && lo < k <= |ops| && StaysFrom(stores, lo, k, r)
    requires RestartsAt(stores, ops, lo) && NoRestart(stores, ops, lo + 1, k)
    ensures NewVotes(stores, ops, k, r) == |stores[k].tree[r].voters - stores[lo].tree[r].voters|
    ensures stores[lo].tree[r].voters <= stores[k].tree[r].voters
  {
    RunKeepsStructure(stores, ops, k - 1);
    assert IsStep(stores[k - 1], ops[k - 1], stores[k - 1 + 1]);
    assert r in stores[k - 1].tree && r in stores[k].tree && r in stores[lo].tree;
    VotersStep(stores[k - 1], ops[k - 1], stores[k], r);
    if lo < k - 1 {
      NewVotesAreDistinct(stores, ops, lo, k - 1, r);
      assert !RestartsAt(stores, ops, k - 1);
    }
    var before, now, start := stores[k - 1].tree[r].voters, stores[k].tree[r].voters, stores[lo].tree[r].voters;
    GrowthAdds(start, before, now);
    if ops[k - 1].Attestation? && ops[k - 1].root == r {
      assert now - before == ops[k - 1].indices - before;
    } else {
      assert now - before == {};
    }
  }

  lemma GrowthAdds(a: set<nat>, b: set<nat>, c: set<nat>)
    requires a <= b <= c
    ensures |c - a| == |b - a| + |c - b|
  {
    assert c - a == (b - a) + (c - b);
  }

  /** A run: 300 validators attest to block 2, so a block on it is stable. */
  lemma ThreeHundredMakeStable(v: set<nat>, cp: Checkpoint)
    requires |v| == 300 && cp.epoch == 0
    ensures var s1 := Inserted(Inserted(EMPTY_STORE, Block(1, 0, 0, cp, cp), false), Block(2, 1, 1, cp, cp), false);
            var s3 := Inserted(Attest(s1, v, 2, 1), Block(3, 2, 2, cp, cp), false);
            3 in s3.tree && s3.tree[3].stable
  {
    assert v - {} == v;
  }
}
