/**
  `InsertChain` on values: what a chain of stored blocks does to the fork choice store, block by block, and
  exactly when the chain arrives although its checkpoints may advance finality and prune on the way.
 */
module ForkChoiceChain {
  import opened Options
  import opened ForkTree
  import opened ForkPruning
  import opened ForkChoice

  datatype ChainResult = ChainResult(s: Store, ok: bool)

  /** Newest first: each block's parent is the next block, and slots fall strictly. */
  predicate IsNewestFirst(chain: seq<Block>) {
    forall i {:trigger Follows(chain, i)} :: 0 <= i < |chain| - 1 ==> Follows(chain, i)
  }

  /** Block `i` is a child of the next block, and later. */
  predicate Follows(chain: seq<Block>, i: int)
    requires 0 <= i < |chain| - 1
  {
    chain[i].parent == chain[i + 1].root && chain[i + 1].slot < chain[i].slot
  }

  predicate DistinctRoots(chain: seq<Block>) {
    forall i, j :: 0 <= i < j < |chain| ==> chain[i].root != chain[j].root
  }

  /** Inserting the block and updating the checkpoints from it keeps the links of the store together. */
  predicate Fits(s: Store, b: Block, beforeGenesis: bool)
    requires Structure(s)
  {
    && ConsistentBlock(s, b)
    && (InsertKeepsStructure(s, b, beforeGenesis);
        !InvalidParent(s, b) ==> !PrunesDetached(Inserted(s, b, beforeGenesis), b.finalized))
  }

  /** One round of the loop: insert, then update the checkpoints; an error ends the loop. */
  function Round(s: Store, b: Block, beforeGenesis: bool): (r: ChainResult)
    requires Structure(s) && Fits(s, b, beforeGenesis)
    ensures r.ok ==> Structure(r.s)
  {
    var s1 := Inserted(s, b, beforeGenesis);
    InsertKeepsStructure(s, b, beforeGenesis);
    if InvalidParent(s, b) then ChainResult(s1, false)
    else
      CheckpointsKeepStructureIff(s1, b.justified, b.finalized);
      ChainResult(UpdateCheckpoints(s1, b.justified, b.finalized),
                  b.finalized.epoch <= s1.finalized.epoch || b.finalized.root in s1.tree)
  }

  lemma RoundKeepsStructure(s: Store, b: Block, beforeGenesis: bool)
    requires Structure(s) && Fits(s, b, beforeGenesis)
    ensures Structure(Round(s, b, beforeGenesis).s)
  {
    InsertKeepsStructure(s, b, beforeGenesis);
    if !InvalidParent(s, b) {
      CheckpointsKeepStructureIff(Inserted(s, b, beforeGenesis), b.justified, b.finalized);
    }
  }

  /** The blocks `chain[i]`, …, `chain[1]` fit when their turn comes. */
  predicate ChainFits(s: Store, chain: seq<Block>, i: nat, beforeGenesis: bool)
    requires Structure(s) && i < |chain|
    decreases i
  {
    i == 0
    || (&& Fits(s, chain[i], beforeGenesis)
        && var r := Round(s, chain[i], beforeGenesis);
           r.ok ==> ChainFits(r.s, chain, i - 1, beforeGenesis))
  }

  /** The loop over `chain[i]`, …, `chain[1]`: all but the newest block, oldest first. */
  function ChainRun(s: Store, chain: seq<Block>, i: nat, beforeGenesis: bool): ChainResult
    requires Structure(s) && i < |chain| && ChainFits(s, chain, i, beforeGenesis)
    decreases i
  {
    if i == 0 then ChainResult(s, true)
    else
      var r := Round(s, chain[i], beforeGenesis);
      if r.ok then ChainRun(r.s, chain, i - 1, beforeGenesis) else r
  }

  /** The loop, one round at a time. */
  lemma ChainRunStep(s: Store, chain: seq<Block>, i: nat, beforeGenesis: bool)
    requires Structure(s) && 0 < i < |chain| && ChainFits(s, chain, i, beforeGenesis)
    ensures Fits(s, chain[i], beforeGenesis)
    ensures var r := Round(s, chain[i], beforeGenesis);
            && (r.ok ==> ChainFits(r.s, chain, i - 1, beforeGenesis))
            && ChainRun(s, chain, i, beforeGenesis)
               == if r.ok then ChainRun(r.s, chain, i - 1, beforeGenesis) else r
  {}

  lemma {:induction false} ChainKeepsStructure(s: Store, chain: seq<Block>, i: nat, beforeGenesis: bool)
    requires Structure(s) && i < |chain| && ChainFits(s, chain, i, beforeGenesis)
    ensures Structure(ChainRun(s, chain, i, beforeGenesis).s)
    decreases i
  {
    if i > 0 {
      RoundKeepsStructure(s, chain[i], beforeGenesis);
      var r := Round(s, chain[i], beforeGenesis);
      if r.ok {
        ChainKeepsStructure(r.s, chain, i - 1, beforeGenesis);
      }
    }
  }

  // Which blocks survive their own round.

  /** The block would be deleted by pruning at `f`: it competes with `f`, or finality rules it out. */
  ghost predicate PrunedAway(s: Store, f: Root, maxSlot: nat, r: Root)
    requires Structure(s) && s.treeRoot.Some? && f in s.tree && r in s.tree
  {
    (IsAncestor(s.tree, s.treeRoot.value, r) && !IsAncestor(s.tree, f, r)) || RuledOut(s.tree, f, maxSlot, r)
  }

  /**
    Its own finalized checkpoint does the block no harm: it does not advance finality, or it is known and
    either has no parent or does not prune the block away.
   */
  ghost predicate Survives(s: Store, b: Block, beforeGenesis: bool)
    requires Structure(s) && s.treeRoot.Some? && Fits(s, b, beforeGenesis)
  {
    var s1 := Inserted(s, b, beforeGenesis);
    InsertKeepsStructure(s, b, beforeGenesis);
    || b.finalized.epoch <= s.finalized.epoch
    || (&& b.finalized.root in s1.tree
        && (s1.tree[b.finalized.root].parent.None?
            || !PrunedAway(s1, b.finalized.root, EpochStart(b.finalized.epoch), b.root)))
  }

  lemma SurvivesIff(s: Store, b: Block, beforeGenesis: bool)
    requires Structure(s) && s.treeRoot.Some? && Fits(s, b, beforeGenesis) && b.parent in s.tree
    ensures var r := Round(s, b, beforeGenesis);
            r.ok && b.root in r.s.tree <==> Survives(s, b, beforeGenesis)
  {
    var s1, f := Inserted(s, b, beforeGenesis), b.finalized.root;
    InsertKeepsStructure(s, b, beforeGenesis);
    if b.finalized.epoch > s.finalized.epoch && f in s1.tree && s1.tree[f].parent.Some? {
      PruneGoneExactly(s1.tree, s1.treeRoot.value, f, EpochStart(b.finalized.epoch), b.root);
    }
  }

  /** None of the blocks to insert is in the store. */
  predicate AllNew(s: Store, chain: seq<Block>, i: nat)
    requires i < |chain|
  {
    forall j {:trigger chain[j]} :: 0 < j <= i ==> chain[j].root !in s.tree
  }

  /** A round adds only its own block and changes neither slots nor child lists nor, but to nothing, targets. */
  lemma RoundKeepsNodes(s: Store, b: Block, beforeGenesis: bool, r: Root)
    requires Structure(s) && Fits(s, b, beforeGenesis) && r in Round(s, b, beforeGenesis).s.tree
    ensures var t1, t2 := Inserted(s, b, beforeGenesis).tree, Round(s, b, beforeGenesis).s.tree;
            && r in t1 && (r in s.tree || r == b.root)
            && t2[r].slot == t1[r].slot && t2[r].children == t1[r].children && SameEpochs(t2[r], t1[r])
            && (t2[r].target == t1[r].target || t2[r].target.None?)
  {
    InsertKeepsStructure(s, b, beforeGenesis);
    var s1 := Inserted(s, b, beforeGenesis);
    if !InvalidParent(s, b) {
      CheckpointsKeepNodes(s1, b.justified, b.finalized, r);
    }
  }

  predicate SameEpochs(a: Node, b: Node) {
    a.justifiedEpoch == b.justifiedEpoch && a.finalizedEpoch == b.finalizedEpoch
  }

  lemma CheckpointsKeepNodes(s: Store, jc: Checkpoint, fc: Checkpoint, r: Root)
    requires PruneReady(s) && r in UpdateCheckpoints(s, jc, fc).tree
    ensures var t2 := UpdateCheckpoints(s, jc, fc).tree;
            && r in s.tree && t2[r].slot == s.tree[r].slot && t2[r].children == s.tree[r].children
            && SameEpochs(t2[r], s.tree[r])
            && (t2[r].target == s.tree[r].target || t2[r].target.None?)
  {}

  lemma RoundKeepsNew(s: Store, chain: seq<Block>, i: nat, beforeGenesis: bool)
    requires Structure(s) && 0 < i < |chain| && Fits(s, chain[i], beforeGenesis)
    requires AllNew(s, chain, i) && DistinctRoots(chain)
    ensures AllNew(Round(s, chain[i], beforeGenesis).s, chain, i - 1)
  {
    var s2 := Round(s, chain[i], beforeGenesis).s;
    forall j | 0 < j <= i - 1 ensures chain[j].root !in s2.tree {
      assert chain[j].root !in s.tree && chain[j].root != chain[i].root;
      if chain[j].root in s2.tree {
        RoundKeepsNodes(s, chain[i], beforeGenesis, chain[j].root);
      }
    }
  }

  /** Each block survives its own round, the oldest first. */
  ghost predicate AllSurvive(s: Store, chain: seq<Block>, i: nat, beforeGenesis: bool)
    requires Structure(s) && i < |chain| && ChainFits(s, chain, i, beforeGenesis)
    decreases i
  {
    i == 0
    || (&& s.treeRoot.Some?
        && Survives(s, chain[i], beforeGenesis)
        && var r := Round(s, chain[i], beforeGenesis);
           r.ok ==> AllSurvive(r.s, chain, i - 1, beforeGenesis))
  }

  lemma RoundKeepsTreeRoot(s: Store, b: Block, beforeGenesis: bool)
    requires Structure(s) && Fits(s, b, beforeGenesis) && s.treeRoot.Some?
    ensures Round(s, b, beforeGenesis).s.treeRoot.Some?
  {}

  /**
    A newest-first chain of new blocks on a known parent arrives, that is no error is returned and the
    newest block's parent is in the store, exactly when every block survives its own round.
   */
  lemma {:induction false} ChainArrivesIff(s: Store, chain: seq<Block>, i: nat, beforeGenesis: bool)
    requires Structure(s) && 0 < i < |chain| && ChainFits(s, chain, i, beforeGenesis) && s.treeRoot.Some?
    requires IsNewestFirst(chain) && DistinctRoots(chain) && AllNew(s, chain, i) && chain[i].parent in s.tree
    ensures var r := ChainRun(s, chain, i, beforeGenesis);
            r.ok && chain[0].parent in r.s.tree <==> AllSurvive(s, chain, i, beforeGenesis)
    decreases i
  {
    var b := chain[i];
    var r := Round(s, b, beforeGenesis);
    SurvivesIff(s, b, beforeGenesis);
    assert Follows(chain, i - 1);
    if r.ok && i > 1 {
      RoundKeepsNew(s, chain, i, beforeGenesis);
      RoundKeepsTreeRoot(s, b, beforeGenesis);
      if b.root in r.s.tree {
        ChainArrivesIff(r.s, chain, i - 1, beforeGenesis);
      } else {
        OrphanedChainFails(r.s, chain, i - 1, beforeGenesis);
      }
    }
  }

  lemma OrphanedChainFails(s: Store, chain: seq<Block>, i: nat, beforeGenesis: bool)
    requires Structure(s) && 0 < i < |chain| && ChainFits(s, chain, i, beforeGenesis) && s.treeRoot.Some?
    requires AllNew(s, chain, i) && chain[i].parent !in s.tree
    ensures var r := ChainRun(s, chain, i, beforeGenesis); !r.ok && r.s.finalized == s.finalized
  {
    assert InvalidParent(s, chain[i]);
  }

  // Chains whose blocks all carry the same checkpoints, as the fill-in builds them.

  predicate Uniform(chain: seq<Block>, i: nat, jc: Checkpoint, fc: Checkpoint)
    requires i < |chain|
  {
    forall j {:trigger chain[j]} :: 0 < j <= i ==> chain[j].justified == jc && chain[j].finalized == fc
  }

  function Later(a: Checkpoint, b: Checkpoint): Checkpoint {
    if b.epoch > a.epoch then b else a
  }

  lemma RoundCheckpoints(s: Store, b: Block, beforeGenesis: bool)
    requires Structure(s) && Fits(s, b, beforeGenesis) && !InvalidParent(s, b)
    ensures var s2 := Round(s, b, beforeGenesis).s;
            s2.justified == Later(s.justified, b.justified) && s2.finalized == Later(s.finalized, b.finalized)
  {
    InsertKeepsStructure(s, b, beforeGenesis);
  }

  lemma RoundSettles(s: Store, b: Block, beforeGenesis: bool)
    requires Structure(s) && Fits(s, b, beforeGenesis) && Round(s, b, beforeGenesis).ok
    ensures b.finalized.epoch <= Round(s, b, beforeGenesis).s.finalized.epoch
  {
    RoundCheckpoints(s, b, beforeGenesis);
  }

  /** Once finality has reached the common checkpoint the rest of the chain arrives. */
  lemma {:induction false} SettledChainSurvives(
    s: Store, chain: seq<Block>, i: nat, beforeGenesis: bool, jc: Checkpoint, fc: Checkpoint)
    requires Structure(s) && i < |chain| && ChainFits(s, chain, i, beforeGenesis) && s.treeRoot.Some?
    requires IsNewestFirst(chain) && Uniform(chain, i, jc, fc) && fc.epoch <= s.finalized.epoch
    requires i > 0 ==> chain[i].parent in s.tree
    ensures AllSurvive(s, chain, i, beforeGenesis)
    ensures var r := ChainRun(s, chain, i, beforeGenesis); r.ok && r.s.finalized == s.finalized
    decreases i
  {
    if i > 0 {
      var r := Round(s, chain[i], beforeGenesis);
      RoundCheckpoints(s, chain[i], beforeGenesis);
      SurvivesIff(s, chain[i], beforeGenesis);
      assert Follows(chain, i - 1);
      RoundKeepsTreeRoot(s, chain[i], beforeGenesis);
      SettledChainSurvives(r.s, chain, i - 1, beforeGenesis, jc, fc);
    }
  }

  /**
    A uniform chain of new blocks on a known parent arrives exactly when its oldest block survives: the
    common finalized checkpoint is not ahead of the store's, or it is known and does not prune that block.
   */
  lemma UniformChainArrivesIff(
    s: Store, chain: seq<Block>, i: nat, beforeGenesis: bool, jc: Checkpoint, fc: Checkpoint)
    requires Structure(s) && 0 < i < |chain| && ChainFits(s, chain, i, beforeGenesis) && s.treeRoot.Some?
    requires IsNewestFirst(chain) && DistinctRoots(chain) && AllNew(s, chain, i) && chain[i].parent in s.tree
    requires Uniform(chain, i, jc, fc)
    ensures var r := ChainRun(s, chain, i, beforeGenesis);
            r.ok && chain[0].parent in r.s.tree <==> Survives(s, chain[i], beforeGenesis)
  {
    ChainArrivesIff(s, chain, i, beforeGenesis);
    SurvivesIff(s, chain[i], beforeGenesis);
    var r := Round(s, chain[i], beforeGenesis);
    if r.ok && chain[i].root in r.s.tree {
      RoundCheckpoints(s, chain[i], beforeGenesis);
      RoundKeepsTreeRoot(s, chain[i], beforeGenesis);
      assert Follows(chain, i - 1);
      SettledChainSurvives(r.s, chain, i - 1, beforeGenesis, jc, fc);
    }
  }

  /** The store's finalized checkpoint afterwards is the later of its own and the common one. */
  lemma UniformChainFinalizes(
    s: Store, chain: seq<Block>, i: nat, beforeGenesis: bool, jc: Checkpoint, fc: Checkpoint)
    requires Structure(s) && 0 < i < |chain| && ChainFits(s, chain, i, beforeGenesis)
    requires chain[i].parent in s.tree && Uniform(chain, i, jc, fc)
    ensures ChainRun(s, chain, i, beforeGenesis).s.finalized == Later(s.finalized, fc)
  {
    RoundCheckpoints(s, chain[i], beforeGenesis);
    var r := Round(s, chain[i], beforeGenesis);
    if r.ok {
      SettledFinality(r.s, chain, i - 1, beforeGenesis, jc, fc);
    }
  }

  /** Every node that a uniform chain adds records the epochs of the common checkpoints. */
  lemma {:induction false} AddedNodesRecord(
    s: Store, chain: seq<Block>, i: nat, beforeGenesis: bool, jc: Checkpoint, fc: Checkpoint, x: Root)
    requires Structure(s) && i < |chain| && ChainFits(s, chain, i, beforeGenesis) && Uniform(chain, i, jc, fc)
    requires x in ChainRun(s, chain, i, beforeGenesis).s.tree
    ensures var t := ChainRun(s, chain, i, beforeGenesis).s.tree;
            (x in s.tree && SameEpochs(t[x], s.tree[x])) || RecordsEpochs(t[x], jc, fc)
    decreases i
  {
    if i > 0 {
      ChainRunStep(s, chain, i, beforeGenesis);
      var r := Round(s, chain[i], beforeGenesis);
      if r.ok {
        AddedNodesRecord(r.s, chain, i - 1, beforeGenesis, jc, fc, x);
      }
      if x in r.s.tree {
        RoundKeepsNodes(s, chain[i], beforeGenesis, x);
        assert chain[i].justified == jc && chain[i].finalized == fc;
      }
    }
  }

  predicate RecordsEpochs(n: Node, jc: Checkpoint, fc: Checkpoint) {
    n.justifiedEpoch == jc.epoch && n.finalizedEpoch == fc.epoch
  }

  lemma {:induction false} SettledFinality(
    s: Store, chain: seq<Block>, i: nat, beforeGenesis: bool, jc: Checkpoint, fc: Checkpoint)
    requires Structure(s) && i < |chain| && ChainFits(s, chain, i, beforeGenesis)
    requires Uniform(chain, i, jc, fc) && fc.epoch <= s.finalized.epoch
    ensures ChainRun(s, chain, i, beforeGenesis).s.finalized == s.finalized
    decreases i
  {
    if i > 0 {
      var r := Round(s, chain[i], beforeGenesis);
      assert chain[i].finalized == fc;
      if r.ok {
        RoundCheckpoints(s, chain[i], beforeGenesis);
        SettledFinality(r.s, chain, i - 1, beforeGenesis, jc, fc);
      }
    }
  }

  // New chains that fit as a whole.

  /** What the state transition, hashing and the finality check guarantee of the blocks still to insert. */
  predicate AllConsistent(s: Store, chain: seq<Block>, i: nat)
    requires i < |chain|
  {
    forall j {:trigger chain[j]} :: 0 < j <= i ==> ConsistentBlock(s, chain[j])
  }

  lemma RoundKeepsConsistent(s: Store, chain: seq<Block>, i: nat, j: nat, beforeGenesis: bool)
    requires Structure(s) && 0 < j < i < |chain| && Fits(s, chain[i], beforeGenesis)
    requires IsNewestFirst(chain) && DistinctRoots(chain) && AllNew(s, chain, i) && AllConsistent(s, chain, i)
    ensures ConsistentBlock(Round(s, chain[i], beforeGenesis).s, chain[j])
  {
    var s2, b := Round(s, chain[i], beforeGenesis).s, chain[j];
    InsertKeepsStructure(s, chain[i], beforeGenesis);
    assert ConsistentBlock(s, b) && b.root !in s.tree && b.root != chain[i].root;
    forall r | r in s2.tree && b.root in s2.tree[r].children ensures r == b.parent {
      RoundKeepsNodes(s, chain[i], beforeGenesis, r);
    }
    forall r | r in s2.tree ensures s2.tree[r].target != Some(b.root) {
      RoundKeepsNodes(s, chain[i], beforeGenesis, r);
    }
    assert Follows(chain, j);
    assert j + 1 < i ==> chain[j + 1].root != chain[i].root && chain[j + 1].root !in s.tree;
    if b.parent in s2.tree {
      RoundKeepsNodes(s, chain[i], beforeGenesis, b.parent);
    }
  }

  /** The blocks `chain[i]`, …, `chain[1]` are consistent and new, and finality has reached their checkpoint. */
  predicate Settled(s: Store, chain: seq<Block>, i: nat, jc: Checkpoint, fc: Checkpoint)
    requires i < |chain|
  {
    AllNew(s, chain, i) && AllConsistent(s, chain, i) && Uniform(chain, i, jc, fc) && fc.epoch <= s.finalized.epoch
  }

  /** Consistent new blocks fit when finality does not move any more. */
  lemma {:induction false} SettledChainFits(
    s: Store, chain: seq<Block>, i: nat, beforeGenesis: bool, jc: Checkpoint, fc: Checkpoint)
    requires Structure(s) && i < |chain| && IsNewestFirst(chain) && DistinctRoots(chain)
    requires Settled(s, chain, i, jc, fc)
    ensures ChainFits(s, chain, i, beforeGenesis)
    decreases i, 2
  {
    if i > 0 {
      assert ConsistentBlock(s, chain[i]) && chain[i].finalized == fc;
      SettledBlockFits(s, chain[i], beforeGenesis);
      NextChainFits(s, chain, i, beforeGenesis, jc, fc);
    }
  }

  lemma RestIsConsistent(s: Store, chain: seq<Block>, i: nat, beforeGenesis: bool)
    requires Structure(s) && 0 < i < |chain| && Fits(s, chain[i], beforeGenesis)
    requires IsNewestFirst(chain) && DistinctRoots(chain) && AllNew(s, chain, i) && AllConsistent(s, chain, i)
    ensures AllConsistent(Round(s, chain[i], beforeGenesis).s, chain, i - 1)
  {
    var r := Round(s, chain[i], beforeGenesis);
    forall j | 0 < j <= i - 1 ensures ConsistentBlock(r.s, chain[j]) {
      RoundKeepsConsistent(s, chain, i, j, beforeGenesis);
    }
  }

  /** A chain fits when its oldest block does and the rest fits after that block's round. */
  lemma ChainFitsStep(s: Store, chain: seq<Block>, i: nat, beforeGenesis: bool)
    requires Structure(s) && 0 < i < |chain| && Fits(s, chain[i], beforeGenesis)
    requires var r := Round(s, chain[i], beforeGenesis); r.ok ==> ChainFits(r.s, chain, i - 1, beforeGenesis)
    ensures ChainFits(s, chain, i, beforeGenesis)
  {}

  /** What the rest of the chain needs after a round without error. */
  lemma AfterRound(
    s: Store, chain: seq<Block>, i: nat, beforeGenesis: bool, jc: Checkpoint, fc: Checkpoint)
    requires Structure(s) && 0 < i < |chain| && IsNewestFirst(chain) && DistinctRoots(chain)
    requires AllNew(s, chain, i) && AllConsistent(s, chain, i) && Uniform(chain, i, jc, fc)
    requires Fits(s, chain[i], beforeGenesis) && Round(s, chain[i], beforeGenesis).ok
    ensures Settled(Round(s, chain[i], beforeGenesis).s, chain, i - 1, jc, fc)
  {
    RoundSettles(s, chain[i], beforeGenesis);
    RoundKeepsNew(s, chain, i, beforeGenesis);
    RestIsConsistent(s, chain, i, beforeGenesis);
  }

  lemma SettledBlockFits(s: Store, b: Block, beforeGenesis: bool)
    requires Structure(s) && ConsistentBlock(s, b) && b.finalized.epoch <= s.finalized.epoch
    ensures Fits(s, b, beforeGenesis)
  {
    InsertKeepsStructure(s, b, beforeGenesis);
  }

  /** After a round without error finality has settled, so the rest fits. */
  lemma {:induction false} RestFits(
    s: Store, chain: seq<Block>, i: nat, beforeGenesis: bool, jc: Checkpoint, fc: Checkpoint)
    requires Structure(s) && 0 < i < |chain| && IsNewestFirst(chain) && DistinctRoots(chain)
    requires AllNew(s, chain, i) && AllConsistent(s, chain, i) && Uniform(chain, i, jc, fc)
    requires Fits(s, chain[i], beforeGenesis) && Round(s, chain[i], beforeGenesis).ok
    ensures ChainFits(Round(s, chain[i], beforeGenesis).s, chain, i - 1, beforeGenesis)
    decreases i, 0
  {
    AfterRound(s, chain, i, beforeGenesis, jc, fc);
    SettledChainFits(Round(s, chain[i], beforeGenesis).s, chain, i - 1, beforeGenesis, jc, fc);
  }

  /** New, consistent blocks with the same checkpoints fit as a chain when the oldest one fits. */
  lemma NextChainFits(
    s: Store, chain: seq<Block>, i: nat, beforeGenesis: bool, jc: Checkpoint, fc: Checkpoint)
    requires Structure(s) && 0 < i < |chain| && IsNewestFirst(chain) && DistinctRoots(chain)
    requires AllNew(s, chain, i) && AllConsistent(s, chain, i) && Uniform(chain, i, jc, fc)
    requires Fits(s, chain[i], beforeGenesis)
    ensures ChainFits(s, chain, i, beforeGenesis)
    decreases i, 1
  {
    if Round(s, chain[i], beforeGenesis).ok {
      RestFits(s, chain, i, beforeGenesis, jc, fc);
    }
    ChainFitsStep(s, chain, i, beforeGenesis);
  }
}
