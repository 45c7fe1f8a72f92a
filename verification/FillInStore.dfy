/**
  Filling the fork choice store with missing blocks: `fillInForkChoiceMissingBlocks` followed by `InsertChain`,
  and what the exchanged checkpoints of its call in `onBlockBatch` do to the store.
 */
module FillInStore {
  import opened Options
  import opened ForkTree
  import opened ForkPruning
  import opened ForkChoice
  import opened ForkChoiceChain
  import opened ForkChoiceStore
  import opened ChainWalks

  function Stored(blocks: Blocks, root: Root, jc: Checkpoint, fc: Checkpoint): Block
    requires root in blocks
  {
    Block(root, blocks[root].slot, blocks[root].parent, jc, fc)
  }

  /** Every stored block that fork choice lacks may be inserted with these checkpoints. */
  predicate MissingOnesFit(s: Store, blocks: Blocks, jc: Checkpoint, fc: Checkpoint, beforeGenesis: bool)
    requires Structure(s)
  {
    forall root {:trigger Stored(blocks, root, jc, fc)} ::
      root in blocks && root !in s.tree ==> Fits(s, Stored(blocks, root, jc, fc), beforeGenesis)
  }

  function Oldest(nodes: seq<Block>): Block
    requires nodes != []
  {
    nodes[|nodes| - 1]
  }

  /** A filled-in chain consists of new, consistent blocks with the same checkpoints. */
  lemma FilledChainFits(
    s: Store, nodes: seq<Block>, blocks: Blocks, inDb: set<Root>, fSlot: nat, jc: Checkpoint, fc: Checkpoint,
    beforeGenesis: bool)
    requires Structure(s) && MissingOnesFit(s, blocks, jc, fc, beforeGenesis) && |nodes| >= 2
    requires IsPending(nodes, blocks, inDb, s.tree.Keys, fSlot) && DistinctRoots(nodes)
    requires forall i :: 0 <= i < |nodes| ==> nodes[i].justified == jc && nodes[i].finalized == fc
    ensures var i := |nodes| - 1;
            AllNew(s, nodes, i) && Uniform(nodes, i, jc, fc) && ChainFits(s, nodes, i, beforeGenesis)
  {
    var i := |nodes| - 1;
    forall j | 0 < j <= i ensures Fits(s, nodes[j], beforeGenesis) && nodes[j].root !in s.tree {
      assert nodes[j] == Stored(blocks, nodes[j].root, jc, fc);
    }
    NextChainFits(s, nodes, i, beforeGenesis, jc, fc);
  }

  /**
    The fill-in of a store. Its two results are what the walk built and whether no error was returned. The
    incoming block's parent is in the store afterwards exactly when the oldest new block hangs on a known one
    and survives the update to the checkpoints handed over; and the store's finalized checkpoint becomes the
    one handed over as such, exactly when that is ahead.
   */
  method FillMissing(
    store: ForkChoiceStore, blk: Block, fCheckpoint: Checkpoint, jCheckpoint: Checkpoint,
    blocks: Blocks, inDb: set<Root>, fSlot: nat, finalizedRoot: Root, beforeGenesis: bool)
    returns (r: Filled, ok: bool)
    requires Structure(store.View()) && store.treeRoot.Some? && ParentsEarlier(blocks)
    requires blk.parent in blocks ==> blocks[blk.parent].slot < blk.slot
    requires blk.root in blocks ==> blocks[blk.root].slot == blk.slot
    requires MissingOnesFit(store.View(), blocks, jCheckpoint, fCheckpoint, beforeGenesis)
    modifies store
    ensures Structure(store.View())
    ensures OutcomeIs(r, Line(blocks, blk.parent), blocks, inDb, old(store.tree).Keys, fSlot, finalizedRoot)
    ensures !r.Insert? ==> store.View() == old(store.View()) && (ok <==> r.NothingMissing?)
    ensures r.Insert? ==>
      && |r.nodes| >= 2
      && Oldest(r.nodes).root in blocks && Oldest(r.nodes).root !in old(store.tree)
      && Oldest(r.nodes) == Stored(blocks, Oldest(r.nodes).root, jCheckpoint, fCheckpoint)
      && (forall i :: 0 <= i < |r.nodes| ==>
            r.nodes[i].justified == jCheckpoint && r.nodes[i].finalized == fCheckpoint)
      && (ok && blk.parent in store.tree <==>
            && Oldest(r.nodes).parent in old(store.tree)
            && old(Survives(store.View(), Oldest(r.nodes), beforeGenesis)))
      && store.finalized == if Oldest(r.nodes).parent in old(store.tree)
                            then Later(old(store.finalized), fCheckpoint) else old(store.finalized)
    ensures forall x {:trigger store.tree[x]} :: x in store.tree && x !in old(store.tree) ==>
              RecordsEpochs(store.tree[x], jCheckpoint, fCheckpoint)
  {
    ghost var s := store.View();
    r := FillIn(blk, fCheckpoint, jCheckpoint, blocks, inDb, store.tree.Keys, fSlot, finalizedRoot);
    if !r.Insert? {
      return r, r.NothingMissing?;
    }
    ghost var i := |r.nodes| - 1;
    FilledChainFits(s, r.nodes, blocks, inDb, fSlot, jCheckpoint, fCheckpoint, beforeGenesis);
    assert r.nodes[i] == Stored(blocks, r.nodes[i].root, jCheckpoint, fCheckpoint);
    assert Fits(s, Oldest(r.nodes), beforeGenesis);
    ok := store.InsertChain(r.nodes, beforeGenesis);
    if r.nodes[i].parent in s.tree {
      UniformChainArrivesIff(s, r.nodes, i, beforeGenesis, jCheckpoint, fCheckpoint);
      UniformChainFinalizes(s, r.nodes, i, beforeGenesis, jCheckpoint, fCheckpoint);
    } else {
      OrphanedChainFails(s, r.nodes, i, beforeGenesis);
    }
    forall x | x in store.tree && x !in s.tree ensures RecordsEpochs(store.tree[x], jCheckpoint, fCheckpoint) {
      AddedNodesRecord(s, r.nodes, i, beforeGenesis, jCheckpoint, fCheckpoint, x);
    }
  }

  // The call of onBlockBatch hands over (justified, finalized) where the declaration says (finalized, justified).

  /** The nodes that were not in the tree before record the epochs of the batch's checkpoints. */
  predicate RecordedRightly(before: Tree, after: Tree, justified: Checkpoint, finalized: Checkpoint) {
    forall x {:trigger after[x]} :: x in after && x !in before ==> RecordsEpochs(after[x], justified, finalized)
  }

  /**
    The fill-in as `onBlockBatch` calls it. The nodes it adds are recorded rightly exactly when the epochs of
    the two checkpoints are equal or there are none. The store takes the batch's justified checkpoint for
    finalized, and prunes at it, exactly when something is inserted on a known block and that checkpoint is
    ahead of the store's finality.
   */
  method FillForBatch(
    store: ForkChoiceStore, blk: Block, justified: Checkpoint, finalized: Checkpoint,
    blocks: Blocks, inDb: set<Root>, fSlot: nat, finalizedRoot: Root, beforeGenesis: bool)
    returns (r: Filled, ok: bool)
    requires Structure(store.View()) && store.treeRoot.Some? && ParentsEarlier(blocks)
    requires blk.parent in blocks ==> blocks[blk.parent].slot < blk.slot
    requires blk.root in blocks ==> blocks[blk.root].slot == blk.slot
    requires MissingOnesFit(store.View(), blocks, finalized, justified, beforeGenesis)
    modifies store
    ensures Structure(store.View())
    ensures OutcomeIs(r, Line(blocks, blk.parent), blocks, inDb, old(store.tree).Keys, fSlot, finalizedRoot)
    ensures RecordedRightly(old(store.tree), store.tree, justified, finalized)
       <==> justified.epoch == finalized.epoch || store.tree.Keys <= old(store.tree).Keys
    ensures store.finalized != old(store.finalized) <==>
      && r.Insert? && |r.nodes| >= 2 && Oldest(r.nodes).parent in old(store.tree)
      && justified.epoch > old(store.finalized).epoch
    ensures store.finalized != old(store.finalized) ==> store.finalized == justified
    ensures r.Insert? ==>
      && |r.nodes| >= 2
      && Oldest(r.nodes).root in blocks && Oldest(r.nodes).root !in old(store.tree)
      && Oldest(r.nodes) == Stored(blocks, Oldest(r.nodes).root, finalized, justified)
      && (ok && blk.parent in store.tree <==>
            && Oldest(r.nodes).parent in old(store.tree)
            && old(Survives(store.View(), Oldest(r.nodes), beforeGenesis)))
  {
    r, ok := FillMissing(store, blk, justified, finalized, blocks, inDb, fSlot, finalizedRoot, beforeGenesis);
    if !(store.tree.Keys <= old(store.tree).Keys) {
      var x :| x in store.tree && x !in old(store.tree);
      assert RecordsEpochs(store.tree[x], finalized, justified);
    }
  }

  /** Two forks on the genesis block, one of them at the first block of epoch 1. */
  function TwoForks(cp: Checkpoint): Store {
    var s0 := Inserted(EMPTY_STORE, Block(1, 0, 0, cp, cp), false);
    var s1 := Inserted(s0, Block(2, 32, 1, cp, cp), false);
    Inserted(s1, Block(5, 33, 1, cp, cp), false)
  }

  lemma TwoForksStructure(cp: Checkpoint)
    requires cp.epoch == 0
    ensures var s := TwoForks(cp);
            Structure(s) && s.treeRoot == Some(1) && s.tree.Keys == {1, 2, 5} && s.finalized.epoch == 0
  {
    InsertKeepsStructure(EMPTY_STORE, Block(1, 0, 0, cp, cp), false);
    var s0 := Inserted(EMPTY_STORE, Block(1, 0, 0, cp, cp), false);
    InsertKeepsStructure(s0, Block(2, 32, 1, cp, cp), false);
    var s1 := Inserted(s0, Block(2, 32, 1, cp, cp), false);
    InsertKeepsStructure(s1, Block(5, 33, 1, cp, cp), false);
  }

  /**
    A run: epoch 1 is justified at block 2 and nothing after genesis is finalized. Filling in block 3 with the
    checkpoints exchanged makes block 2 final: the genesis block and the fork at block 5 are deleted, and
    block 3 is recorded with justified epoch 0 and finalized epoch 1.
   */
  lemma ExchangeFinalizesJustified(cp: Checkpoint) returns (s: Store, r: ChainResult)
    requires cp == Checkpoint(0, 1)
    ensures var justified := Checkpoint(1, 2);
            var chain := [Block(4, 34, 3, cp, justified), Block(3, 33, 2, cp, justified)];
            && s == TwoForks(cp) && Structure(s) && ChainFits(s, chain, 1, false)
            && r == ChainRun(s, chain, 1, false) && r.ok
            && r.s.finalized == justified && s.finalized.epoch == 0
            && 5 in s.tree && 5 !in r.s.tree && 1 !in r.s.tree
            && 3 in r.s.tree && r.s.tree[3].justifiedEpoch == 0 && r.s.tree[3].finalizedEpoch == 1
  {
    var justified := Checkpoint(1, 2);
    var b3 := Block(3, 33, 2, cp, justified);
    var chain := [Block(4, 34, 3, cp, justified), b3];
    TwoForksStructure(cp);
    s := TwoForks(cp);
    var s1 := Inserted(s, b3, false);
    InsertKeepsStructure(s, b3, false);
    var t := s1.tree;
    assert IsAncestor(t, 1, 1) && IsAncestor(t, 2, 2);
    assert IsAncestor(t, 1, 2) && IsAncestor(t, 1, 3) && IsAncestor(t, 2, 3) && IsAncestor(t, 1, 5);
    assert !IsAncestor(t, 2, 1) && !IsAncestor(t, 2, 5);
    assert Fits(s, b3, false);
    var r1 := Round(s, b3, false);
    PruneGoneExactly(t, 1, 2, 32, 1);
    PruneGoneExactly(t, 1, 2, 32, 3);
    PruneGoneExactly(t, 1, 2, 32, 5);
    assert ChainFits(s, chain, 1, false) by {
      assert chain[1] == b3;
      assert ChainFits(r1.s, chain, 0, false);
    }
    r := ChainRun(s, chain, 1, false);
    assert ChainRun(r1.s, chain, 0, false) == ChainResult(r1.s, true);
  }
}
