/**
  The available-attestation fork choice: a block is stable when at least half a slot's committee has
  attested to its parent, and the head is the deepest stable, viable leaf.
 */
module ForkChoice {
  import opened Options
  import opened ForkTree
  import opened ForkPruning

  const TOTAL_VALIDATOR_COUNT: nat := 16384
  const VALIDATORS_PER_SLOT: nat := TOTAL_VALIDATOR_COUNT / 32

  datatype Checkpoint = Checkpoint(epoch: nat, root: Root)

  datatype Block = Block(root: Root, slot: nat, parent: Root, justified: Checkpoint, finalized: Checkpoint)

  /** `cacheSlot` and `cacheAttCount`: the votes counted since the newest attested slot. */
  datatype Votes = Votes(slot: nat, counts: Option<map<Root, nat>>)

  /** Everything in the store except the cached head. */
  datatype Store = Store(
    tree: Tree,
    treeRoot: Option<Root>,
    votes: Votes,
    justified: Checkpoint,
    finalized: Checkpoint)

  const EMPTY_STORE := Store(map[], None, Votes(0, None), Checkpoint(0, 0), Checkpoint(0, 0))

  // ---- Votes ----

  function CountOf(v: Votes, r: Root): nat {
    if v.counts.Some? && r in v.counts.value then v.counts.value[r] else 0
  }

  /** `UpdateVoted`: an attestation for a newer slot restarts the count of every block. */
  function UpdateVoted(v: Votes, slot: nat, root: Root, count: nat): Votes {
    var base := if slot > v.slot || v.counts.None? then Votes(slot, Some(map[])) else v;
    Votes(base.slot, Some(base.counts.value[root := CountOf(base, root) + count]))
  }

  /** `ProcessAttestation`: only indices that are new for this block are counted. */
  function Attest(s: Store, indices: set<nat>, root: Root, slot: nat): Store {
    if root !in s.tree then s
    else
      var n := s.tree[root];
      s.(tree := s.tree[root := n.(voters := n.voters + indices)],
         votes := UpdateVoted(s.votes, slot, root, |indices - n.voters|))
  }

  // ---- Insertion ----

  /** The available-attestation rule: is a block on this parent stable? */
  predicate StableOn(s: Store, parent: Root)
    requires parent in s.tree
  {
    if s.votes.counts.Some? && parent in s.votes.counts.value
    then s.votes.counts.value[parent] >= VALIDATORS_PER_SLOT / 2
    else s.tree[parent].slot == 0
  }

  function TargetFor(t: Tree, b: Block): Option<Root> {
    if b.slot % SLOTS_PER_EPOCH == 0 then Some(b.root)
    else if b.parent in t then
      if Epoch(b.slot) == Epoch(t[b.parent].slot) then t[b.parent].target else Some(b.parent)
    else None
  }

  function NewNode(t: Tree, b: Block, stable: bool): Node {
    Node(b.slot, if b.parent in t then Some(b.parent) else None, TargetFor(t, b), [],
         b.justified.epoch, b.finalized.epoch, stable, {})
  }

  /** A new node below its parent; stability is decided only after genesis. */
  function Attached(s: Store, b: Block, beforeGenesis: bool): Tree
    requires b.root !in s.tree && b.parent in s.tree
  {
    var p := s.tree[b.parent];
    s.tree[b.parent := p.(children := p.children + [b.root])]
          [b.root := NewNode(s.tree, b, !beforeGenesis && StableOn(s, b.parent))]
  }

  /** The store after `insert`; without a parent only the very first node is accepted. */
  function Inserted(s: Store, b: Block, beforeGenesis: bool): Store {
    if b.root in s.tree then s
    else if b.parent in s.tree then s.(tree := Attached(s, b, beforeGenesis))
    else if s.treeRoot.None? then
      s.(tree := s.tree[b.root := NewNode(s.tree, b, true)], treeRoot := Some(b.root))
    else s.(tree := s.tree[b.root := NewNode(s.tree, b, false)])
  }

  /** `insert` reports an invalid parent, although the node has been registered. */
  predicate InvalidParent(s: Store, b: Block) {
    b.root !in s.tree && b.parent !in s.tree && s.treeRoot.Some?
  }

  // ---- Finalization ----

  predicate PruneReady(s: Store) {
    && WellFormed(s.tree) && ChildrenOk(s.tree)
    && (s.treeRoot.Some? ==> s.treeRoot.value in s.tree)
    && (s.treeRoot.None? ==> s.tree == map[])
  }

  /** `prune`. */
  function Prune(s: Store): Store
    requires PruneReady(s)
  {
    var f := s.finalized.root;
    if f !in s.tree || s.tree[f].parent.None? then s
    else s.(tree := Pruned(s.tree, s.treeRoot.value, f, EpochStart(s.finalized.epoch)),
            treeRoot := Some(f))
  }

  function UpdateCheckpoints(s: Store, jc: Checkpoint, fc: Checkpoint): Store
    requires PruneReady(s)
  {
    var s1 := if jc.epoch > s.justified.epoch then s.(justified := jc) else s;
    if fc.epoch <= s.finalized.epoch then s1 else Prune(s1.(finalized := fc))
  }

  // ---- What every operation keeps ----

  /** The cached count never exceeds the number of distinct validators recorded for a block. */
  predicate VoteBound(s: Store) {
    forall r {:trigger CountOf(s.votes, r)} :: r in s.tree ==> CountOf(s.votes, r) <= |s.tree[r].voters|
  }

  /** A stable block with a parent rests on half a committee of distinct validators. */
  predicate Backed(t: Tree, r: Root)
    requires r in t
  {
    t[r].stable && t[r].parent.Some? && t[r].parent.value in t ==>
      var p := t[t[r].parent.value]; p.slot == 0 || |p.voters| >= VALIDATORS_PER_SLOT / 2
  }

  predicate AllBacked(t: Tree) {
    forall r {:trigger Backed(t, r)} :: r in t ==> Backed(t, r)
  }

  predicate RootOk(s: Store) {
    && (s.treeRoot.Some? ==> s.treeRoot.value in s.tree && s.tree[s.treeRoot.value].parent.None?)
    && (s.treeRoot.None? ==> s.tree == map[])
  }

  /** The links of the tree: parents, children, targets and the tree root fit together. */
  predicate Structure(s: Store) {
    && WellFormed(s.tree)
    && TargetsOk(s.tree)
    && ChildrenOk(s.tree)
    && RootOk(s)
  }

  /** Counted votes are backed by recorded validators, and so is every stable block. */
  predicate VotesOk(s: Store) {
    VoteBound(s) && AllBacked(s.tree)
  }

  predicate Inv(s: Store) {
    Structure(s) && VotesOk(s)
  }

  /**
    What callers guarantee of a block that is not in the store. That it is later than its parent and that no
    other node lists it as a child follows from the state transition and from hashing. That no stale target
    names it follows from the finality check on incoming blocks: a target goes stale only when pruning
    removes a block before the finalized one.
   */
  predicate ConsistentBlock(s: Store, b: Block) {
    b.root !in s.tree ==>
      && (b.parent in s.tree ==> s.tree[b.parent].slot < b.slot)
      && (forall r {:trigger s.tree[r].target} :: r in s.tree ==> s.tree[r].target != Some(b.root))
      && (forall r {:trigger s.tree[r].children} :: r in s.tree && b.root in s.tree[r].children ==> r == b.parent)
  }

  /** No votes are cached for a block that is not in the store. */
  predicate NoLeftoverVotes(s: Store, b: Block) {
    b.root !in s.tree ==> CountOf(s.votes, b.root) == 0
  }

  /** Old nodes keep slot, parent and target when nodes are added. */
  predicate Extends(t: Tree, t': Tree) {
    forall r {:trigger r in t'} :: r in t ==>
      r in t' && t'[r].slot == t[r].slot && t'[r].parent == t[r].parent && t'[r].target == t[r].target
  }

  lemma {:induction false} ExtensionAncestorAt(t: Tree, t': Tree, r: Root, slot: nat)
    requires WellFormed(t) && WellFormed(t') && Extends(t, t') && r in t
    ensures r in t' && AncestorAt(t', r, slot) == AncestorAt(t, r, slot)
    decreases t[r].slot
  {
    assert Linked(t, r);
    assert r in t';
    if t[r].slot > slot && t[r].parent.Some? {
      ExtensionAncestorAt(t, t', t[r].parent.value, slot);
    }
  }

  lemma InsertedIsWellFormed(s: Store, b: Block, beforeGenesis: bool)
    requires WellFormed(s.tree) && ConsistentBlock(s, b)
    ensures WellFormed(Inserted(s, b, beforeGenesis).tree)
    ensures Extends(s.tree, Inserted(s, b, beforeGenesis).tree)
  {
    var t' := Inserted(s, b, beforeGenesis).tree;
    forall r | r in t' ensures Linked(t', r) {
      assert r in s.tree ==> Linked(s.tree, r);
    }
  }

  lemma InsertedTargets(s: Store, b: Block, beforeGenesis: bool)
    requires Structure(s) && ConsistentBlock(s, b)
    ensures WellFormed(Inserted(s, b, beforeGenesis).tree)
    ensures TargetsOk(Inserted(s, b, beforeGenesis).tree)
  {
    InsertedIsWellFormed(s, b, beforeGenesis);
    var t, t' := s.tree, Inserted(s, b, beforeGenesis).tree;
    forall r | r in t' ensures TargetOk(t', r) {
      if r in t {
        assert TargetOk(t, r) && r in t';
        ExtensionAncestorAt(t, t', r, EpochStart(Epoch(t[r].slot)));
      } else {
        NewNodeTarget(s, b, t');
      }
    }
  }

  /** The target pointer set at insertion is the checkpoint block of the new node. */
  lemma NewNodeTarget(s: Store, b: Block, t': Tree)
    requires Structure(s) && ConsistentBlock(s, b) && b.root !in s.tree
    requires WellFormed(t') && Extends(s.tree, t') && b.root in t'
    requires t'.Keys == s.tree.Keys + {b.root}
    requires t'[b.root].slot == b.slot && t'[b.root].target == TargetFor(s.tree, b)
    requires t'[b.root].parent == if b.parent in s.tree then Some(b.parent) else None
    ensures TargetOk(t', b.root)
  {
    var e := EpochStart(Epoch(b.slot));
    EpochArithmetic(b.slot, Epoch(b.slot));
    assert Linked(t', b.root);
    if b.parent in s.tree && b.slot % SLOTS_PER_EPOCH != 0 {
      var p := b.parent;
      assert p in t';
      ExtensionAncestorAt(s.tree, t', p, e);
      EpochArithmetic(t'[p].slot, Epoch(b.slot));
      assert TargetOk(s.tree, p);
    }
  }

  lemma InsertedChildren(s: Store, b: Block, beforeGenesis: bool)
    requires Structure(s) && ConsistentBlock(s, b)
    ensures ChildrenOk(Inserted(s, b, beforeGenesis).tree)
  {
    var t, t' := s.tree, Inserted(s, b, beforeGenesis).tree;
    forall p | p in t' ensures ListsItsChildren(t', p) {
      assert p in t ==> ListsItsChildren(t, p);
    }
    forall c | c in t' ensures IsListed(t', c) {
      assert c in t ==> IsListed(t, c) && Linked(t, c);
    }
  }

  lemma InsertedBacked(s: Store, b: Block, beforeGenesis: bool)
    requires Inv(s) && ConsistentBlock(s, b)
    ensures AllBacked(Inserted(s, b, beforeGenesis).tree)
  {
    var t, t' := s.tree, Inserted(s, b, beforeGenesis).tree;
    forall r | r in t' ensures Backed(t', r) {
      if r in t {
        assert Backed(t, r) && Linked(t, r);
      } else if b.parent in t {
        assert CountOf(s.votes, b.parent) <= |t[b.parent].voters|;
      }
    }
  }

  lemma InsertKeepsStructure(s: Store, b: Block, beforeGenesis: bool)
    requires Structure(s) && ConsistentBlock(s, b)
    ensures Structure(Inserted(s, b, beforeGenesis))
  {
    InsertedIsWellFormed(s, b, beforeGenesis);
    InsertedTargets(s, b, beforeGenesis);
    InsertedChildren(s, b, beforeGenesis);
    if s.treeRoot.Some? {
      assert s.treeRoot.value in Inserted(s, b, beforeGenesis).tree;
    }
  }

  /** Insertion keeps the links together exactly for the blocks that fit: nothing less would do. */
  lemma InsertKeepsStructureIff(s: Store, b: Block, beforeGenesis: bool)
    requires Structure(s)
    ensures Structure(Inserted(s, b, beforeGenesis)) <==> ConsistentBlock(s, b)
  {
    if ConsistentBlock(s, b) {
      InsertKeepsStructure(s, b, beforeGenesis);
    } else if Structure(Inserted(s, b, beforeGenesis)) {
      MisfitBreaksStructure(s, b, beforeGenesis);
    }
  }

  lemma MisfitBreaksStructure(s: Store, b: Block, beforeGenesis: bool)
    requires Structure(s) && Structure(Inserted(s, b, beforeGenesis))
    ensures ConsistentBlock(s, b)
  {
    var t, t' := s.tree, Inserted(s, b, beforeGenesis).tree;
    if b.root !in t {
      assert Linked(t', b.root);
      assert b.parent in t ==> t[b.parent].slot < b.slot;
      assert Extends(t, t');
      forall r | r in t ensures t[r].target != Some(b.root) {
        assert TargetOk(t, r) && r in t' && TargetOk(t', r);
        AncestorAtInTree(t, r, EpochStart(Epoch(t[r].slot)));
        ExtensionAncestorAt(t, t', r, EpochStart(Epoch(t[r].slot)));
      }
      forall r | r in t && b.root in t[r].children ensures r == b.parent {
        assert ListsItsChildren(t', r);
        assert b.root in t'[r].children;
      }
    }
  }

  lemma AncestorAtInTree(t: Tree, r: Root, slot: nat)
    requires WellFormed(t) && r in t
    ensures AncestorAt(t, r, slot).Some? ==> AncestorAt(t, r, slot).value in t
  {
    if AncestorAt(t, r, slot).Some? {
      AncestorAtIsAncestor(t, r, slot);
    }
  }

  lemma InsertKeepsInv(s: Store, b: Block, beforeGenesis: bool)
    requires Inv(s) && ConsistentBlock(s, b) && NoLeftoverVotes(s, b)
    ensures Inv(Inserted(s, b, beforeGenesis))
  {
    InsertKeepsStructure(s, b, beforeGenesis);
    InsertedBacked(s, b, beforeGenesis);
    var s' := Inserted(s, b, beforeGenesis);
    forall r | r in s'.tree ensures CountOf(s'.votes, r) <= |s'.tree[r].voters| {
      assert r in s.tree ==> CountOf(s.votes, r) <= |s.tree[r].voters|;
    }
  }

  /** Votes left over for the new block exceed its recorded validators: it has none yet. */
  lemma LeftoverBreaksVoteBound(s: Store, b: Block, beforeGenesis: bool)
    requires b.root !in s.tree && !NoLeftoverVotes(s, b)
    ensures !VoteBound(Inserted(s, b, beforeGenesis))
  {
    var s' := Inserted(s, b, beforeGenesis);
    assert CountOf(s'.votes, b.root) > |s'.tree[b.root].voters|;
  }

  lemma AttestKeepsStructure(s: Store, indices: set<nat>, root: Root, slot: nat)
    requires Structure(s)
    ensures Structure(Attest(s, indices, root, slot))
    ensures Attest(s, indices, root, slot).tree.Keys == s.tree.Keys
  {
    var t, t' := s.tree, Attest(s, indices, root, slot).tree;
    forall r | r in t' ensures Linked(t', r) && ListsItsChildren(t', r) && IsListed(t', r) {
      assert Linked(t, r) && ListsItsChildren(t, r) && IsListed(t, r);
    }
    forall r | r in t' ensures TargetOk(t', r) {
      assert TargetOk(t, r);
      ExtensionAncestorAt(t, t', r, EpochStart(Epoch(t[r].slot)));
    }
  }

  lemma NewVotersCount(old_: set<nat>, indices: set<nat>)
    ensures |old_ + indices| == |old_| + |indices - old_|
  {
    assert old_ + indices == old_ + (indices - old_);
  }

  lemma AttestKeepsInv(s: Store, indices: set<nat>, root: Root, slot: nat)
    requires Inv(s)
    ensures Inv(Attest(s, indices, root, slot))
  {
    AttestKeepsStructure(s, indices, root, slot);
    if root in s.tree {
      var s' := Attest(s, indices, root, slot);
      NewVotersCount(s.tree[root].voters, indices);
      forall r | r in s'.tree ensures CountOf(s'.votes, r) <= |s'.tree[r].voters| {
        assert CountOf(s.votes, r) <= |s.tree[r].voters|;
      }
      forall r | r in s'.tree ensures Backed(s'.tree, r) {
        assert Backed(s.tree, r) && Linked(s.tree, r);
      }
    }
  }

  /** Removing nodes by a cut keeps votes and backing. */
  lemma CutKeepsVotes(s: Store, s': Store, cut: Option<Root>)
    requires Inv(s) && Cuts(s.tree, s'.tree, cut) && s'.votes == s.votes
    ensures VoteBound(s') && AllBacked(s'.tree)
  {
    forall r | r in s'.tree ensures CountOf(s'.votes, r) <= |s'.tree[r].voters| {
      assert KeepsNode(s.tree, s'.tree, cut, r);
      assert CountOf(s.votes, r) <= |s.tree[r].voters|;
    }
    forall r | r in s'.tree ensures Backed(s'.tree, r) {
      assert KeepsNode(s.tree, s'.tree, cut, r) && Backed(s.tree, r);
      if s'.tree[r].parent.Some? {
        assert KeepsNode(s.tree, s'.tree, cut, s'.tree[r].parent.value);
      }
    }
  }

  /** The finalized block, if it is known, lies in the tree of the tree root. */
  predicate FinalizedInTree(s: Store, fc: Checkpoint)
    requires WellFormed(s.tree)
  {
    s.treeRoot.Some? && fc.root in s.tree ==> IsAncestor(s.tree, s.treeRoot.value, fc.root)
  }

  lemma CheckpointsKeepStructure(s: Store, jc: Checkpoint, fc: Checkpoint)
    requires Structure(s) && FinalizedInTree(s, fc)
    ensures Structure(UpdateCheckpoints(s, jc, fc))
  {
    var s', f := UpdateCheckpoints(s, jc, fc), fc.root;
    if fc.epoch > s.finalized.epoch && f in s.tree && s.tree[f].parent.Some? {
      var max := EpochStart(fc.epoch);
      PruneCuts(s.tree, s.treeRoot.value, f, max);
      CutKeepsTargets(s.tree, s'.tree, Some(f));
      PruneKeepsChildren(s.tree, s.treeRoot.value, f, max);
      FinalizedStays(s.tree, s.treeRoot.value, f, max);
      assert KeepsNode(s.tree, s'.tree, Some(f), f);
    } else {
      assert s'.tree == s.tree;
    }
  }

  lemma CheckpointsKeepInv(s: Store, jc: Checkpoint, fc: Checkpoint)
    requires Inv(s) && !PrunesDetached(s, fc)
    ensures Inv(UpdateCheckpoints(s, jc, fc))
  {
    CheckpointsKeepStructureIff(s, jc, fc);
    var s', f := UpdateCheckpoints(s, jc, fc), fc.root;
    if fc.epoch > s.finalized.epoch && f in s.tree && s.tree[f].parent.Some? {
      PruneCuts(s.tree, s.treeRoot.value, f, EpochStart(fc.epoch));
      CutKeepsVotes(s, s', Some(f));
    } else {
      SameTreeKeepsVotes(s, s');
    }
  }

  lemma SameTreeKeepsVotes(s: Store, s': Store)
    requires VotesOk(s) && s'.tree == s.tree && s'.votes == s.votes
    ensures VotesOk(s')
  {
    forall r | r in s'.tree ensures CountOf(s'.votes, r) <= |s'.tree[r].voters| {
      assert CountOf(s.votes, r) <= |s.tree[r].voters|;
    }
  }

  /** Finality moves to a block that has a parent but hangs below a node registered without one. */
  predicate PrunesDetached(s: Store, fc: Checkpoint)
    requires WellFormed(s.tree)
  {
    && fc.epoch > s.finalized.epoch
    && fc.root in s.tree && s.tree[fc.root].parent.Some?
    && s.treeRoot.Some? && !IsAncestor(s.tree, s.treeRoot.value, fc.root)
  }

  /** New checkpoints keep the links together exactly unless finality moves to such a block. */
  lemma CheckpointsKeepStructureIff(s: Store, jc: Checkpoint, fc: Checkpoint)
    requires Structure(s)
    ensures Structure(UpdateCheckpoints(s, jc, fc)) <==> !PrunesDetached(s, fc)
  {
    var s', f := UpdateCheckpoints(s, jc, fc), fc.root;
    if PrunesDetached(s, fc) {
      var p := s.tree[f].parent.value;
      assert Linked(s.tree, f) && IsListed(s.tree, f);
      DetachedPruneDeletes(s, jc, fc, p);
      DetachedPruneDeletes(s, jc, fc, f);
      assert IsAncestor(s.tree, p, p) && IsAncestor(s.tree, f, f);
      ParentIsNotBelow(s.tree, f, p);
      assert s'.tree[f].parent.None? && f in s'.tree[p].children;
      assert !ListsItsChildren(s'.tree, p);
    } else if fc.epoch > s.finalized.epoch && f in s.tree && s.tree[f].parent.Some? {
      assert FinalizedInTree(s, fc);
      CheckpointsKeepStructure(s, jc, fc);
    } else {
      assert s'.tree == s.tree;
    }
  }

  lemma ParentIsNotBelow(t: Tree, f: Root, p: Root)
    requires WellFormed(t) && f in t && p in t && t[f].parent == Some(p)
    ensures !IsAncestor(t, f, p)
  {
    assert Linked(t, f);
    if IsAncestor(t, f, p) {
      AncestorSlots(t, f, p);
    }
  }

  /** Then the whole tree below the tree root is deleted, and nothing above the new root is. */
  lemma DetachedPruneDeletes(s: Store, jc: Checkpoint, fc: Checkpoint, x: Root)
    requires Structure(s) && PrunesDetached(s, fc) && x in s.tree
    ensures IsAncestor(s.tree, s.treeRoot.value, x) ==> x !in UpdateCheckpoints(s, jc, fc).tree
    ensures !IsAncestor(s.tree, s.treeRoot.value, x) && (!IsAncestor(s.tree, fc.root, x) || x == fc.root) ==>
              x in UpdateCheckpoints(s, jc, fc).tree
  {
    var t, root, f := s.tree, s.treeRoot.value, fc.root;
    DeletedExactly(t, root, Some(f), x);
    if IsAncestor(t, root, x) && IsAncestor(t, f, x) {
      AncestorsAreChain(t, root, f, x);
      AncestorSlots(t, f, root);
    }
    DeletedBelowExactly(t, f, LateFree(t, t[f].children, EpochStart(fc.epoch)), None, x);
  }

  /**
    A run: block 7 is refused for its unknown parent but stays registered, block 8 is inserted below it and
    becomes final. The tree of the genesis block is gone and block 7 still lists block 8 as its child.
   */
  lemma DetachedFinalityBreaksLinks(cp: Checkpoint)
    requires cp.epoch == 0
    ensures var s0 := Inserted(EMPTY_STORE, Block(1, 0, 0, cp, cp), false);
            var s1 := Inserted(s0, Block(7, 5, 6, cp, cp), false);
            var s2 := Inserted(s1, Block(8, 6, 7, cp, cp), false);
            && InvalidParent(s0, Block(7, 5, 6, cp, cp))
            && Structure(s2) && PrunesDetached(s2, Checkpoint(1, 8))
            && var s3 := UpdateCheckpoints(s2, cp, Checkpoint(1, 8));
               1 !in s3.tree && 7 in s3.tree && 8 in s3.tree && s3.treeRoot == Some(8) && !Structure(s3)
  {
    var s0 := Inserted(EMPTY_STORE, Block(1, 0, 0, cp, cp), false);
    InsertKeepsStructure(EMPTY_STORE, Block(1, 0, 0, cp, cp), false);
    var s1 := Inserted(s0, Block(7, 5, 6, cp, cp), false);
    InsertKeepsStructure(s0, Block(7, 5, 6, cp, cp), false);
    var s2 := Inserted(s1, Block(8, 6, 7, cp, cp), false);
    InsertKeepsStructure(s1, Block(8, 6, 7, cp, cp), false);
    assert !IsAncestor(s2.tree, 1, 7) && !IsAncestor(s2.tree, 1, 8) && IsAncestor(s2.tree, 1, 1);
    assert !IsAncestor(s2.tree, 8, 7);
    DetachedPruneDeletes(s2, cp, Checkpoint(1, 8), 1);
    DetachedPruneDeletes(s2, cp, Checkpoint(1, 8), 7);
    DetachedPruneDeletes(s2, cp, Checkpoint(1, 8), 8);
    CheckpointsKeepStructureIff(s2, cp, Checkpoint(1, 8));
  }

  /** `removeNode` of a block whose payload turned out invalid. */
  function Invalidate(s: Store, x: Root): Store
    requires WellFormed(s.tree) && ChildrenOk(s.tree)
  {
    if x !in s.tree || s.tree[x].parent.None? then s else s.(tree := Removed(s.tree, x))
  }

  lemma InvalidateKeepsStructure(s: Store, x: Root)
    requires Structure(s)
    ensures Structure(Invalidate(s, x))
  {
    var s' := Invalidate(s, x);
    if x in s.tree && s.tree[x].parent.Some? {
      RemoveCuts(s.tree, x);
      CutKeepsTargets(s.tree, s'.tree, None);
      RemoveKeepsChildren(s.tree, x);
      assert KeepsNode(s.tree, s'.tree, None, s.treeRoot.value);
    }
  }

  lemma InvalidateKeepsInv(s: Store, x: Root)
    requires Inv(s)
    ensures Inv(Invalidate(s, x))
  {
    InvalidateKeepsStructure(s, x);
    if x in s.tree && s.tree[x].parent.Some? {
      RemoveCuts(s.tree, x);
      CutKeepsVotes(s, Invalidate(s, x), None);
    }
  }
}
