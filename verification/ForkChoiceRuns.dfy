/**
  Runs of the fork choice store: what every run keeps, and exactly which histories let an old vote count vouch
  for a block again.
 */
module ForkChoiceRuns {
  import opened Options
  import opened ForkTree
  import opened ForkPruning
  import opened ForkChoice

  datatype Op =
    | Insert(block: Block, beforeGenesis: bool)
    | Attestation(indices: set<nat>, root: Root, slot: nat)
    | NewCheckpoints(justified: Checkpoint, finalized: Checkpoint)
    | InvalidPayload(root: Root)

  /** The operations whose effect keeps the links together (see the two iff lemmas of ForkChoice). */
  predicate Allowed(s: Store, op: Op)
    requires WellFormed(s.tree)
  {
    match op
    case Insert(b, _) => ConsistentBlock(s, b)
    case NewCheckpoints(_, fc) => !PrunesDetached(s, fc)
    case _ => true
  }

  function Apply(s: Store, op: Op): Store
    requires PruneReady(s)
  {
    match op
    case Insert(b, beforeGenesis) => Inserted(s, b, beforeGenesis)
    case Attestation(indices, root, slot) => Attest(s, indices, root, slot)
    case NewCheckpoints(jc, fc) => UpdateCheckpoints(s, jc, fc)
    case InvalidPayload(root) => Invalidate(s, root)
  }

  ghost predicate IsRun(stores: seq<Store>, ops: seq<Op>) {
    && |stores| == |ops| + 1
    && stores[0] == EMPTY_STORE
    && forall i {:trigger ops[i]} ::
         0 <= i < |ops| ==> IsStep(stores[i], ops[i], stores[i + 1])
  }

  ghost predicate IsStep(s: Store, op: Op, s': Store) {
    PruneReady(s) && Allowed(s, op) && s' == Apply(s, op)
  }

  lemma StepKeepsStructure(s: Store, op: Op, s': Store)
    requires Structure(s) && IsStep(s, op, s')
    ensures Structure(s')
  {
    match op
    case Insert(b, beforeGenesis) => InsertKeepsStructure(s, b, beforeGenesis);
    case Attestation(indices, root, slot) => AttestKeepsStructure(s, indices, root, slot);
    case NewCheckpoints(jc, fc) => CheckpointsKeepStructureIff(s, jc, fc);
    case InvalidPayload(root) => InvalidateKeepsStructure(s, root);
  }

  /** In every reachable store the links fit together, whatever votes are left over. */
  lemma {:induction false} RunKeepsStructure(stores: seq<Store>, ops: seq<Op>, k: nat)
    requires IsRun(stores, ops) && k <= |ops|
    ensures Structure(stores[k])
  {
    if k > 0 {
      RunKeepsStructure(stores, ops, k - 1);
      assert IsStep(stores[k - 1], ops[k - 1], stores[k - 1 + 1]);
      StepKeepsStructure(stores[k - 1], ops[k - 1], stores[k]);
    }
  }

  // Where cached votes come from.

  /** Operation `i` counts a validator for `r` that was not recorded for it. */
  predicate CountsAt(stores: seq<Store>, ops: seq<Op>, i: int, r: Root)
    requires 0 <= i < |ops| == |stores| - 1
  {
    ops[i].Attestation? && ops[i].root == r && r in stores[i].tree && !(ops[i].indices <= stores[i].tree[r].voters)
  }

  /** Operation `i` attests to a block of the store. */
  predicate KnownAt(stores: seq<Store>, ops: seq<Op>, i: int)
    requires 0 <= i < |ops| == |stores| - 1
  {
    ops[i].Attestation? && ops[i].root in stores[i].tree
  }

  /** Operation `i` is the first attestation, to a block of the store, of a newer slot: every count starts again. */
  predicate RestartsAt(stores: seq<Store>, ops: seq<Op>, i: int)
    requires 0 <= i < |ops| == |stores| - 1
  {
    && KnownAt(stores, ops, i)
    && forall j {:trigger KnownAt(stores, ops, j)} ::
         0 <= j < i && KnownAt(stores, ops, j) ==> ops[j].slot < ops[i].slot
  }

  predicate NoRestart(stores: seq<Store>, ops: seq<Op>, lo: nat, hi: nat)
    requires hi <= |ops| == |stores| - 1
  {
    forall i {:trigger RestartsAt(stores, ops, i)} :: lo <= i < hi ==> !RestartsAt(stores, ops, i)
  }

  /** A validator was counted for `r` in the first `k` operations, and no restart came after it. */
  predicate CountedSince(stores: seq<Store>, ops: seq<Op>, k: nat, r: Root)
    requires k <= |ops| == |stores| - 1
  {
    exists i {:trigger CountsAt(stores, ops, i, r)} ::
      0 <= i < k && CountsAt(stores, ops, i, r) && NoRestart(stores, ops, i + 1, k)
  }

  lemma CountedStep(stores: seq<Store>, ops: seq<Op>, k: nat, r: Root)
    requires 0 < k <= |ops| == |stores| - 1
    ensures CountedSince(stores, ops, k, r) <==>
            CountsAt(stores, ops, k - 1, r)
            || (CountedSince(stores, ops, k - 1, r) && !RestartsAt(stores, ops, k - 1))
  {
    if CountsAt(stores, ops, k - 1, r) {
      assert NoRestart(stores, ops, k, k);
    }
    if CountedSince(stores, ops, k - 1, r) && !RestartsAt(stores, ops, k - 1) {
      var i :| 0 <= i < k - 1 && CountsAt(stores, ops, i, r) && NoRestart(stores, ops, i + 1, k - 1);
      assert NoRestart(stores, ops, i + 1, k);
    }
    if CountedSince(stores, ops, k, r) && !CountsAt(stores, ops, k - 1, r) {
      var i :| 0 <= i < k && CountsAt(stores, ops, i, r) && NoRestart(stores, ops, i + 1, k);
      assert i < k - 1 && NoRestart(stores, ops, i + 1, k - 1);
    }
  }

  /** One operation's effect on the cached count of `r`. */
  lemma CountStep(s: Store, op: Op, s': Store, r: Root)
    requires Structure(s) && IsStep(s, op, s')
    ensures CountOf(s'.votes, r) > 0 <==>
            (op.Attestation? && op.root == r && r in s.tree && !(op.indices <= s.tree[r].voters))
            || (CountOf(s.votes, r) > 0
                && !(op.Attestation? && op.root in s.tree && (op.slot > s.votes.slot || s.votes.counts.None?)))
  {
    if op.Attestation? && op.root == r && r in s.tree {
      var added := op.indices - s.tree[r].voters;
      if op.indices <= s.tree[r].voters {
        assert added == {};
      } else {
        var x :| x in op.indices && x !in s.tree[r].voters;
        assert x in added;
      }
    }
  }

  /** The cached slot is that of the newest attestation so far. */
  predicate SlotIsNewest(stores: seq<Store>, ops: seq<Op>, k: nat)
    requires k <= |ops| == |stores| - 1
  {
    && (forall j {:trigger KnownAt(stores, ops, j)} :: 0 <= j < k && KnownAt(stores, ops, j) ==>
          stores[k].votes.counts.Some? && ops[j].slot <= stores[k].votes.slot)
    && (stores[k].votes.counts.Some? ==>
          exists j {:trigger KnownAt(stores, ops, j)} ::
            0 <= j < k && KnownAt(stores, ops, j) && ops[j].slot == stores[k].votes.slot)
  }

  lemma {:induction false} RunKeepsNewest(stores: seq<Store>, ops: seq<Op>, k: nat)
    requires IsRun(stores, ops) && k <= |ops|
    ensures SlotIsNewest(stores, ops, k)
  {
    if k > 0 {
      RunKeepsNewest(stores, ops, k - 1);
      RunKeepsStructure(stores, ops, k - 1);
      assert IsStep(stores[k - 1], ops[k - 1], stores[k - 1 + 1]);
      VotesChange(stores[k - 1], ops[k - 1], stores[k]);
      if KnownAt(stores, ops, k - 1) {
        NewestAfterAttestation(stores, ops, k);
      }
    }
  }

  /** Only attestations to known blocks touch the cached votes. */
  lemma VotesChange(s: Store, op: Op, s': Store)
    requires Structure(s) && IsStep(s, op, s')
    ensures s'.votes == if op.Attestation? && op.root in s.tree
                        then UpdateVoted(s.votes, op.slot, op.root, |op.indices - s.tree[op.root].voters|)
                        else s.votes
  {}

  lemma NewestAfterAttestation(stores: seq<Store>, ops: seq<Op>, k: nat)
    requires 0 < k <= |ops| == |stores| - 1 && KnownAt(stores, ops, k - 1) && SlotIsNewest(stores, ops, k - 1)
    requires stores[k].votes.counts.Some?
    requires var v, slot := stores[k - 1].votes, ops[k - 1].slot;
             stores[k].votes.slot == if slot > v.slot || v.counts.None? then slot else v.slot
    ensures SlotIsNewest(stores, ops, k)
  {
    var v, slot := stores[k - 1].votes, ops[k - 1].slot;
    if !(slot > v.slot || v.counts.None?) {
      var j :| 0 <= j < k - 1 && KnownAt(stores, ops, j) && ops[j].slot == v.slot;
      assert KnownAt(stores, ops, j) && ops[j].slot == stores[k].votes.slot;
    }
  }

  /** The test that the store makes is the restart of the history. */
  lemma RestartIsTested(stores: seq<Store>, ops: seq<Op>, i: nat)
    requires IsRun(stores, ops) && i < |ops|
    ensures RestartsAt(stores, ops, i) <==>
            KnownAt(stores, ops, i) && (ops[i].slot > stores[i].votes.slot || stores[i].votes.counts.None?)
  {
    RunKeepsNewest(stores, ops, i);
  }

  /** In every run a count is cached for exactly the roots counted since the last restart. */
  lemma {:induction false} CachedExactlyWhenCounted(stores: seq<Store>, ops: seq<Op>, k: nat, r: Root)
    requires IsRun(stores, ops) && k <= |ops|
    ensures CountOf(stores[k].votes, r) > 0 <==> CountedSince(stores, ops, k, r)
  {
    if k > 0 {
      CachedExactlyWhenCounted(stores, ops, k - 1, r);
      RunKeepsStructure(stores, ops, k - 1);
      assert IsStep(stores[k - 1], ops[k - 1], stores[k - 1 + 1]);
      CountStep(stores[k - 1], ops[k - 1], stores[k], r);
      RestartIsTested(stores, ops, k - 1);
      CountedStep(stores, ops, k, r);
    }
  }

  /** Operation `j` removes `r` from the store: pruning or an invalid payload. */
  predicate RemovesAt(stores: seq<Store>, ops: seq<Op>, j: int, r: Root)
    requires 0 <= j < |ops| == |stores| - 1
  {
    (ops[j].NewCheckpoints? || ops[j].InvalidPayload?) && r in stores[j].tree && r !in stores[j + 1].tree
  }

  /** A root that was in the store and no longer is was removed on the way. */
  lemma {:induction false} RemovedBetween(stores: seq<Store>, ops: seq<Op>, i: nat, k: nat, r: Root)
    returns (j: nat)
    requires IsRun(stores, ops) && i < k <= |ops| && r in stores[i].tree && r !in stores[k].tree
    ensures i <= j < k && RemovesAt(stores, ops, j, r)
  {
    RunKeepsStructure(stores, ops, k - 1);
    assert IsStep(stores[k - 1], ops[k - 1], stores[k - 1 + 1]);
    if r in stores[k - 1].tree {
      j := k - 1;
      OnlyRemovalsRemove(stores[j], ops[j], stores[k], r);
    } else {
      j := RemovedBetween(stores, ops, i, k - 1, r);
    }
  }

  lemma OnlyRemovalsRemove(s: Store, op: Op, s': Store, r: Root)
    requires Structure(s) && IsStep(s, op, s') && r in s.tree && r !in s'.tree
    ensures op.NewCheckpoints? || op.InvalidPayload?
  {}

  /**
    Operation `k` inserts a block that is not in the store although a validator was counted for it since the
    last restart of the vote count. It was then removed in between (RemovedBetween).
   */
  predicate Reenters(stores: seq<Store>, ops: seq<Op>, k: int)
    requires 0 <= k < |ops| == |stores| - 1
  {
    && ops[k].Insert?
    && ops[k].block.root !in stores[k].tree
    && CountedSince(stores, ops, k, ops[k].block.root)
  }

  lemma ReentersIsRemoved(stores: seq<Store>, ops: seq<Op>, k: nat) returns (i: nat, j: nat)
    requires IsRun(stores, ops) && k < |ops| && Reenters(stores, ops, k)
    ensures i < j < k && CountsAt(stores, ops, i, ops[k].block.root) && NoRestart(stores, ops, i + 1, k)
    ensures RemovesAt(stores, ops, j, ops[k].block.root)
  {
    var r := ops[k].block.root;
    i :| i < k && CountsAt(stores, ops, i, r) && NoRestart(stores, ops, i + 1, k);
    j := RemovedBetween(stores, ops, i, k, r);
  }

  /** A block enters with leftover votes exactly when it re-enters. */
  lemma LeftoverExactlyWhenReentering(stores: seq<Store>, ops: seq<Op>, k: nat)
    requires IsRun(stores, ops) && k < |ops| && ops[k].Insert?
    ensures !NoLeftoverVotes(stores[k], ops[k].block) <==> Reenters(stores, ops, k)
  {
    CachedExactlyWhenCounted(stores, ops, k, ops[k].block.root);
  }

  lemma StepKeepsInv(s: Store, op: Op, s': Store)
    requires Inv(s) && IsStep(s, op, s') && (op.Insert? ==> NoLeftoverVotes(s, op.block))
    ensures Inv(s')
  {
    match op
    case Insert(b, beforeGenesis) => InsertKeepsInv(s, b, beforeGenesis);
    case Attestation(indices, root, slot) => AttestKeepsInv(s, indices, root, slot);
    case NewCheckpoints(jc, fc) => CheckpointsKeepInv(s, jc, fc);
    case InvalidPayload(root) => InvalidateKeepsInv(s, root);
  }

  predicate NoReentry(stores: seq<Store>, ops: seq<Op>, n: nat)
    requires n <= |ops| == |stores| - 1
  {
    forall k {:trigger Reenters(stores, ops, k)} :: 0 <= k < n ==> !Reenters(stores, ops, k)
  }

  /** As long as no block re-enters, every reachable store satisfies the whole invariant. */
  lemma {:induction false} RunKeepsInv(stores: seq<Store>, ops: seq<Op>, n: nat)
    requires IsRun(stores, ops) && n <= |ops| && NoReentry(stores, ops, n)
    ensures Inv(stores[n])
  {
    if n > 0 {
      var k := n - 1;
      assert NoReentry(stores, ops, k);
      RunKeepsInv(stores, ops, k);
      assert IsStep(stores[k], ops[k], stores[k + 1]);
      if ops[k].Insert? {
        LeftoverExactlyWhenReentering(stores, ops, k);
      }
      StepKeepsInv(stores[k], ops[k], stores[n]);
    } else {
      assert VotesOk(EMPTY_STORE);
    }
  }

  /** And exactly as long: a re-entry breaks the vote bound at once. */
  lemma InvExactlyWithoutReentry(stores: seq<Store>, ops: seq<Op>, n: nat)
    requires IsRun(stores, ops) && n <= |ops|
    ensures (forall k {:trigger Inv(stores[k])} :: 0 <= k <= n ==> Inv(stores[k])) <==> NoReentry(stores, ops, n)
  {
    if NoReentry(stores, ops, n) {
      forall k: nat | k <= n ensures Inv(stores[k]) {
        assert NoReentry(stores, ops, k);
        RunKeepsInv(stores, ops, k);
      }
    }
    forall k: nat | k < n ensures Reenters(stores, ops, k) ==> !Inv(stores[k + 1]) {
      ReentryBreaksInv(stores, ops, k);
    }
  }

  lemma ReentryBreaksInv(stores: seq<Store>, ops: seq<Op>, k: nat)
    requires IsRun(stores, ops) && k < |ops|
    ensures Reenters(stores, ops, k) ==> !Inv(stores[k + 1])
  {
    if Reenters(stores, ops, k) {
      assert IsStep(stores[k], ops[k], stores[k + 1]);
      LeftoverExactlyWhenReentering(stores, ops, k);
      LeftoverBreaksVoteBound(stores[k], ops[k].block, ops[k].beforeGenesis);
    }
  }

  // Why re-entry matters.

  /**
    A removed block that comes back starts with no recorded voters but finds its old count.
    The same 200 validators then count twice, and its child is stable on 200 distinct votes.
   */
  lemma LeftoverVotesBreakBacking(v: set<nat>, cp: Checkpoint)
    requires |v| == 200 && cp.epoch == 0
    ensures var s0 := Inserted(EMPTY_STORE, Block(1, 0, 0, cp, cp), false);
            var s1 := Inserted(s0, Block(2, 1, 1, cp, cp), false);
            var s2 := Attest(s1, v, 2, 1);
            && WellFormed(s2.tree) && ChildrenOk(s2.tree)
            && var s3 := Invalidate(s2, 2);
               && 2 !in s3.tree
               && !NoLeftoverVotes(s3, Block(2, 1, 1, cp, cp))
               && var s4 := Inserted(s3, Block(2, 1, 1, cp, cp), false);
                  var s5 := Attest(s4, v, 2, 1);
                  var s6 := Inserted(s5, Block(3, 2, 2, cp, cp), false);
                  3 in s6.tree && !Backed(s6.tree, 3)
  {
    var b1, b2 := Block(1, 0, 0, cp, cp), Block(2, 1, 1, cp, cp);
    var s0 := Inserted(EMPTY_STORE, b1, false);
    InsertKeepsInv(EMPTY_STORE, b1, false);
    var s1 := Inserted(s0, b2, false);
    InsertKeepsInv(s0, b2, false);
    var s2 := Attest(s1, v, 2, 1);
    AttestKeepsInv(s1, v, 2, 1);
    var s3 := Invalidate(s2, 2);
    RemoveCuts(s2.tree, 2);
    assert IsAncestor(s2.tree, 2, 2);
    assert v - {} == v;
    assert CountOf(s2.votes, 2) == 200;
    assert KeepsNode(s2.tree, s3.tree, None, 1) by {
      assert !IsAncestor(s2.tree, 2, 1);
    }
    var s4 := Inserted(s3, b2, false);
    var s5 := Attest(s4, v, 2, 1);
    assert s5.tree[2].voters == v;
    assert CountOf(s5.votes, 2) == 400;
    var s6 := Inserted(s5, Block(3, 2, 2, cp, cp), false);
    assert s6.tree[3].stable && s6.tree[3].parent == Some(2);
    assert s6.tree[2].voters == v;
  }
}
