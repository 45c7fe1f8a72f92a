/**
  Why the blocks that reach the fork choice store fit it: a root determines slot and parent, a block is later
  than its parent, and blocks not after the finalized epoch start are refused.
 */
module ForkChoiceAdmission {
  import opened Options
  import opened ForkTree
  import opened ForkPruning
  import opened ForkChoice
  import opened ForkChoiceRuns

  /** What a root commits to. */
  datatype Header = Header(slot: nat, parent: Root)

  type Headers = Root -> Header

  predicate NodeHashed(t: Tree, hs: Headers, r: Root)
    requires r in t
  {
    && t[r].slot == hs(r).slot
    && (t[r].parent.Some? ==> t[r].parent.value == hs(r).parent)
    && (forall c :: c in t[r].children ==> hs(c).parent == r)
  }

  /** A target that has left the store was not after the finalized epoch start. */
  predicate StaleIsFinal(s: Store, hs: Headers, r: Root)
    requires r in s.tree
  {
    var x := s.tree[r].target;
    x.Some? && x.value !in s.tree ==> hs(x.value).slot <= EpochStart(s.finalized.epoch)
  }

  predicate Hashed(s: Store, hs: Headers) {
    && (forall r {:trigger NodeHashed(s.tree, hs, r)} :: r in s.tree ==> NodeHashed(s.tree, hs, r))
    && (forall r {:trigger StaleIsFinal(s, hs, r)} :: r in s.tree ==> StaleIsFinal(s, hs, r))
  }

  /** The block is what its root commits to, later than its parent, and after the finalized epoch start. */
  predicate Admitted(s: Store, hs: Headers, b: Block) {
    && hs(b.root) == Header(b.slot, b.parent)
    && (b.parent in s.tree ==> s.tree[b.parent].slot < b.slot)
    && (s.treeRoot.Some? ==> b.slot > EpochStart(s.finalized.epoch))
  }

  /** An admitted block always fits. */
  lemma AdmittedIsConsistent(s: Store, hs: Headers, b: Block)
    requires Structure(s) && Hashed(s, hs) && Admitted(s, hs, b)
    ensures ConsistentBlock(s, b)
  {
    if b.root !in s.tree {
      forall r | r in s.tree ensures s.tree[r].target != Some(b.root) {
        assert StaleIsFinal(s, hs, r);
      }
      forall r | r in s.tree && b.root in s.tree[r].children ensures r == b.parent {
        assert NodeHashed(s.tree, hs, r);
      }
    }
  }

  lemma InsertKeepsHashed(s: Store, hs: Headers, b: Block, beforeGenesis: bool)
    requires Structure(s) && Hashed(s, hs) && Admitted(s, hs, b)
    ensures Hashed(Inserted(s, b, beforeGenesis), hs)
  {
    var s' := Inserted(s, b, beforeGenesis);
    forall r | r in s'.tree ensures NodeHashed(s'.tree, hs, r) {
      assert r in s.tree ==> NodeHashed(s.tree, hs, r);
    }
    forall r | r in s'.tree ensures StaleIsFinal(s', hs, r) {
      assert r in s.tree ==> StaleIsFinal(s, hs, r);
      assert b.parent in s.tree ==> StaleIsFinal(s, hs, b.parent);
    }
  }

  lemma AttestKeepsHashed(s: Store, hs: Headers, indices: set<nat>, root: Root, slot: nat)
    requires Hashed(s, hs)
    ensures Hashed(Attest(s, indices, root, slot), hs)
  {
    var s' := Attest(s, indices, root, slot);
    forall r | r in s'.tree ensures NodeHashed(s'.tree, hs, r) && StaleIsFinal(s', hs, r) {
      assert NodeHashed(s.tree, hs, r) && StaleIsFinal(s, hs, r);
    }
  }

  /** A target is an ancestor while it is in the store. */
  lemma TargetIsAncestor(t: Tree, r: Root)
    requires WellFormed(t) && TargetsOk(t) && r in t && t[r].target.Some? && t[r].target.value in t
    ensures IsAncestor(t, t[r].target.value, r)
  {
    assert TargetOk(t, r);
    AncestorAtIsAncestor(t, r, EpochStart(Epoch(t[r].slot)));
  }

  /** What pruning takes from under a remaining node lies before the finalized block. */
  lemma PrunedAncestor(t: Tree, root: Root, f: Root, maxSlot: nat, x: Root, r: Root)
    requires WellFormed(t) && ChildrenOk(t) && root in t && f in t && IsAncestor(t, root, f)
    requires x in t && r in t && IsAncestor(t, x, r)
    requires x in PruneGone(t, root, f, maxSlot) && r !in PruneGone(t, root, f, maxSlot)
    ensures t[x].slot <= t[f].slot
  {
    PruneGoneExactly(t, root, f, maxSlot, x);
    PruneGoneExactly(t, root, f, maxSlot, r);
    if RuledOut(t, f, maxSlot, x) {
      var c :| c in t[f].children && c in t && t[c].slot <= maxSlot && IsAncestor(t, c, x);
      AncestorIsTransitive(t, c, x, r);
    } else {
      AncestorIsTransitive(t, root, x, r);
      AncestorsAreChain(t, f, x, r);
      AncestorSlots(t, x, f);
    }
  }

  /** A finalized block is not after the start of its epoch. */
  predicate CheckpointFits(s: Store, fc: Checkpoint) {
    fc.root in s.tree ==> s.tree[fc.root].slot <= EpochStart(fc.epoch)
  }

  lemma PruneKeepsStaleFinal(s: Store, hs: Headers, jc: Checkpoint, fc: Checkpoint, r: Root)
    requires Structure(s) && Hashed(s, hs) && CheckpointFits(s, fc) && !PrunesDetached(s, fc)
    requires r in UpdateCheckpoints(s, jc, fc).tree
    ensures StaleIsFinal(UpdateCheckpoints(s, jc, fc), hs, r)
  {
    var s', f := UpdateCheckpoints(s, jc, fc), fc.root;
    assert StaleIsFinal(s, hs, r);
    EpochStartsRise(s.finalized.epoch, s'.finalized.epoch);
    if fc.epoch > s.finalized.epoch && f in s.tree && s.tree[f].parent.Some? {
      var x := s'.tree[r].target;
      if x.Some? && x.value !in s'.tree && x.value in s.tree {
        TargetIsAncestor(s.tree, r);
        PrunedAncestor(s.tree, s.treeRoot.value, f, EpochStart(fc.epoch), x.value, r);
        assert NodeHashed(s.tree, hs, x.value);
      }
    }
  }

  lemma EpochStartsRise(a: nat, b: nat)
    requires a <= b
    ensures EpochStart(a) <= EpochStart(b)
  {}

  lemma CheckpointsKeepHashed(s: Store, hs: Headers, jc: Checkpoint, fc: Checkpoint)
    requires Structure(s) && Hashed(s, hs) && CheckpointFits(s, fc) && !PrunesDetached(s, fc)
    ensures Hashed(UpdateCheckpoints(s, jc, fc), hs)
  {
    var s' := UpdateCheckpoints(s, jc, fc);
    forall r | r in s'.tree ensures NodeHashed(s'.tree, hs, r) {
      assert NodeHashed(s.tree, hs, r);
    }
    forall r | r in s'.tree ensures StaleIsFinal(s', hs, r) {
      PruneKeepsStaleFinal(s, hs, jc, fc, r);
    }
  }

  lemma InvalidateKeepsHashed(s: Store, hs: Headers, y: Root)
    requires Structure(s) && Hashed(s, hs)
    ensures Hashed(Invalidate(s, y), hs)
  {
    var s' := Invalidate(s, y);
    if y in s.tree && s.tree[y].parent.Some? {
      RemoveCuts(s.tree, y);
      forall r | r in s'.tree ensures NodeHashed(s'.tree, hs, r) && StaleIsFinal(s', hs, r) {
        assert NodeHashed(s.tree, hs, r) && StaleIsFinal(s, hs, r) && KeepsNode(s.tree, s'.tree, None, r);
        forall c | c in s'.tree[r].children ensures c in s.tree[r].children {
          RemoveListsLess(s.tree, y, r, c);
        }
        var x := s'.tree[r].target;
        if x.Some? && x.value in s.tree {
          TargetIsAncestor(s.tree, r);
          if IsAncestor(s.tree, y, x.value) {
            AncestorIsTransitive(s.tree, y, x.value, r);
          }
        }
      }
    }
  }

  // Runs.

  /** What the callers check, in place of the store's own demands. */
  predicate MayCall(s: Store, hs: Headers, op: Op)
    requires WellFormed(s.tree)
  {
    match op
    case Insert(b, _) => Admitted(s, hs, b)
    case NewCheckpoints(_, fc) => CheckpointFits(s, fc) && !PrunesDetached(s, fc)
    case _ => true
  }

  ghost predicate IsAdmittedRun(stores: seq<Store>, ops: seq<Op>, hs: Headers) {
    && |stores| == |ops| + 1
    && stores[0] == EMPTY_STORE
    && forall i {:trigger ops[i]} :: 0 <= i < |ops| ==>
         PruneReady(stores[i]) && MayCall(stores[i], hs, ops[i]) && stores[i + 1] == Apply(stores[i], ops[i])
  }

  lemma AdmittedStep(s: Store, hs: Headers, op: Op)
    requires Structure(s) && Hashed(s, hs) && MayCall(s, hs, op)
    ensures Allowed(s, op) && Hashed(Apply(s, op), hs)
  {
    match op
    case Insert(b, beforeGenesis) =>
      AdmittedIsConsistent(s, hs, b);
      InsertKeepsHashed(s, hs, b, beforeGenesis);
    case Attestation(indices, root, slot) => AttestKeepsHashed(s, hs, indices, root, slot);
    case NewCheckpoints(jc, fc) => CheckpointsKeepHashed(s, hs, jc, fc);
    case InvalidPayload(root) => InvalidateKeepsHashed(s, hs, root);
  }

  /**
    Runs whose blocks pass the callers' checks are runs of the store: no block is ever named by a stale
    target or by another block's child list.
   */
  lemma {:induction false} AdmittedRunFits(stores: seq<Store>, ops: seq<Op>, hs: Headers, k: nat)
    requires IsAdmittedRun(stores, ops, hs) && k <= |ops|
    ensures IsRun(stores[..k + 1], ops[..k]) && Structure(stores[k]) && Hashed(stores[k], hs)
  {
    if k > 0 {
      AdmittedRunFits(stores, ops, hs, k - 1);
      var s, op := stores[k - 1], ops[k - 1];
      AdmittedStep(s, hs, op);
      StepKeepsStructure(s, op, stores[k]);
      forall i | 0 <= i < k ensures IsStep(stores[..k + 1][i], ops[..k][i], stores[..k + 1][i + 1]) {
        if i < k - 1 {
          assert ops[..k - 1][i] == ops[i];
          assert IsStep(stores[..k][i], ops[..k - 1][i], stores[..k][i + 1]);
        }
      }
    }
  }
}
