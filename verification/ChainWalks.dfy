/**
  Walks along stored blocks: re-saving the operations of orphaned blocks, filling fork
  choice with missing blocks, and the ancestor search in the database.
 */
module ChainWalks {
  import opened Options
  import opened ForkTree
  import opened ForkChoice
  import opened ForkChoiceChain

  datatype Att = Att(slot: nat, id: nat)

  /** A stored block; `others` are its slashings, exits and address changes. */
  datatype Body = Body(slot: nat, parent: Root, atts: seq<Att>, others: seq<nat>)

  type Blocks = map<Root, Body>

  predicate ParentEarlier(blocks: Blocks, r: Root)
    requires r in blocks
  {
    blocks[r].parent in blocks ==> blocks[blocks[r].parent].slot < blocks[r].slot
  }

  /** Guaranteed by the state transition: slots rise along the chain. */
  predicate ParentsEarlier(blocks: Blocks) {
    forall r {:trigger ParentEarlier(blocks, r)} :: r in blocks ==> ParentEarlier(blocks, r)
  }

  /** Termination measure of a walk from `r`. */
  function Height(blocks: Blocks, r: Root): nat {
    if r in blocks then blocks[r].slot + 1 else 0
  }

  // ---- saveOrphanedOperations ----

  datatype WalkFailure = BlockNotFound | PoolRejected

  /** What a walk put into the pools, and the error that ended it, if any. */
  datatype Saved = Saved(atts: seq<Att>, others: seq<nat>, failure: Option<WalkFailure>)

  /** `clock(i)` is the current slot at the i-th reading; `rejects` is a pool error. */
  datatype World = World(blocks: Blocks, clock: nat -> nat, rejects: Att -> bool)

  ghost predicate ClockRuns(w: World) {
    forall i, j :: i <= j ==> w.clock(i) <= w.clock(j)
  }

  /** `process_attestation`: a block only includes attestations from earlier slots. */
  predicate AttsEarlier(blocks: Blocks) {
    forall r, k :: r in blocks && 0 <= k < |blocks[r].atts| ==> blocks[r].atts[k].slot < blocks[r].slot
  }

  /** The attestation loop of one block; the clock is read once per attestation. */
  function SaveAtts(w: World, atts: seq<Att>, t: nat): (seq<Att>, bool) {
    if atts == [] then ([], true)
    else if atts[0].slot + SLOTS_PER_EPOCH < w.clock(t) then SaveAtts(w, atts[1..], t + 1)
    else if w.rejects(atts[0]) then ([], false)
    else
      var (rest, ok) := SaveAtts(w, atts[1..], t + 1);
      ([atts[0]] + rest, ok)
  }

  /** The walk from `r` up to `ancestor`, with or without the early exit. */
  function Walk(w: World, r: Root, ancestor: Root, t: nat, early: bool): Saved
    requires ParentsEarlier(w.blocks)
    decreases Height(w.blocks, r)
  {
    if r == ancestor then Saved([], [], None)
    else if r !in w.blocks then Saved([], [], Some(BlockNotFound))
    else
      var b := w.blocks[r];
      assert ParentEarlier(w.blocks, r);
      if early && b.slot + SLOTS_PER_EPOCH <= w.clock(t) then Saved([], [], None)
      else
        var (atts, ok) := SaveAtts(w, b.atts, t + 1);
        if !ok then Saved(atts, [], Some(PoolRejected))
        else
          var rest := Walk(w, b.parent, ancestor, t + 1 + |b.atts|, early);
          Then(atts, b.others, rest)
  }

  /** What was saved before, followed by the rest of the walk. */
  function Then(atts: seq<Att>, others: seq<nat>, rest: Saved): Saved {
    Saved(atts + rest.atts, others + rest.others, rest.failure)
  }

  lemma ThenIsAssociative(a: seq<Att>, o: seq<nat>, a': seq<Att>, o': seq<nat>, rest: Saved)
    ensures Then(a, o, Then(a', o', rest)) == Then(a + a', o + o', rest)
  {
    assert a + (a' + rest.atts) == a + a' + rest.atts;
    assert o + (o' + rest.others) == o + o' + rest.others;
  }

  lemma ThenNothing(a: seq<Att>, o: seq<nat>, f: Option<WalkFailure>)
    ensures Then(a, o, Saved([], [], f)) == Saved(a, o, f)
    ensures Then([], [], Saved(a, o, f)) == Saved(a, o, f)
  {}

  lemma {:induction false} OldAttsAreSkipped(w: World, atts: seq<Att>, t: nat, bound: nat)
    requires ClockRuns(w) && bound + SLOTS_PER_EPOCH <= w.clock(t)
    requires forall k :: 0 <= k < |atts| ==> atts[k].slot < bound
    ensures SaveAtts(w, atts, t) == ([], true)
  {
    if atts != [] {
      assert w.clock(t) <= w.clock(t + 1);
      OldAttsAreSkipped(w, atts[1..], t + 1, bound);
    }
  }

  /** From a block at least one epoch old on, a full walk saves no attestation at all. */
  lemma {:induction false} OldWalkSavesNothing(w: World, r: Root, ancestor: Root, t: nat)
    requires ParentsEarlier(w.blocks) && AttsEarlier(w.blocks) && ClockRuns(w)
    requires r in w.blocks ==> w.blocks[r].slot + SLOTS_PER_EPOCH <= w.clock(t)
    ensures Walk(w, r, ancestor, t, false).atts == []
    decreases Height(w.blocks, r)
  {
    if r != ancestor && r in w.blocks {
      var b := w.blocks[r];
      assert ParentEarlier(w.blocks, r);
      var t' := t + 1 + |b.atts|;
      assert w.clock(t) <= w.clock(t + 1) && w.clock(t) <= w.clock(t');
      OldAttsAreSkipped(w, b.atts, t + 1, b.slot);
      OldWalkSavesNothing(w, b.parent, ancestor, t');
    }
  }

  /**
    The early exit loses no attestation: with any clock that does not run backwards, the
    walk saves exactly the attestations a full walk to the common ancestor would save.
   */
  lemma {:induction false} EarlyExitLosesNoAttestation(w: World, r: Root, ancestor: Root, t: nat)
    requires ParentsEarlier(w.blocks) && AttsEarlier(w.blocks) && ClockRuns(w)
    ensures Walk(w, r, ancestor, t, true).atts == Walk(w, r, ancestor, t, false).atts
    decreases Height(w.blocks, r)
  {
    if r != ancestor && r in w.blocks {
      var b := w.blocks[r];
      assert ParentEarlier(w.blocks, r);
      if b.slot + SLOTS_PER_EPOCH <= w.clock(t) {
        OldWalkSavesNothing(w, r, ancestor, t);
      } else {
        EarlyExitLosesNoAttestation(w, b.parent, ancestor, t + 1 + |b.atts|);
      }
    }
  }

  /** `saveOrphanedOperations` after the common ancestor has been found. */
  method SaveOrphanedOperations(w: World, orphanedRoot: Root, ancestor: Root) returns (saved: Saved)
    requires ParentsEarlier(w.blocks)
    ensures saved == Walk(w, orphanedRoot, ancestor, 0, true)
  {
    var r, t: nat := orphanedRoot, 0;
    var atts: seq<Att>, others: seq<nat> := [], [];
    ghost var all := Walk(w, orphanedRoot, ancestor, 0, true);
    ThenNothing(all.atts, all.others, all.failure);
    while r != ancestor
      invariant Then(atts, others, Walk(w, r, ancestor, t, true)) == all
      decreases Height(w.blocks, r)
    {
      if r !in w.blocks {
        ThenNothing(atts, others, Some(BlockNotFound));
        return Saved(atts, others, Some(BlockNotFound));
      }
      var b := w.blocks[r];
      assert ParentEarlier(w.blocks, r);
      if b.slot + SLOTS_PER_EPOCH <= w.clock(t) {
        break;
      }
      var more, ok := SaveBlockAtts(w, b.atts, t + 1);
      if !ok {
        ThenIsAssociative(atts, others, more, [], Saved([], [], Some(PoolRejected)));
        ThenNothing(more, [], Some(PoolRejected));
        ThenNothing(atts + more, others, Some(PoolRejected));
        assert others + [] == others;
        return Saved(atts + more, others, Some(PoolRejected));
      }
      ThenIsAssociative(atts, others, more, b.others, Walk(w, b.parent, ancestor, t + 1 + |b.atts|, true));
      atts, others := atts + more, others + b.others;
      r, t := b.parent, t + 1 + |b.atts|;
    }
    ThenNothing(atts, others, None);
    return Saved(atts, others, None);
  }

  method SaveBlockAtts(w: World, atts: seq<Att>, t: nat) returns (saved: seq<Att>, ok: bool)
    ensures (saved, ok) == SaveAtts(w, atts, t)
  {
    saved, ok := [], true;
    ghost var all := SaveAtts(w, atts, t);
    assert atts[0..] == atts;
    for k := 0 to |atts|
      invariant ok
      invariant var rest := SaveAtts(w, atts[k..], t + k);
                saved + rest.0 == all.0 && rest.1 == all.1
    {
      assert atts[k..][1..] == atts[k + 1..];
      if atts[k].slot + SLOTS_PER_EPOCH < w.clock(t + k) {
        continue;
      }
      if w.rejects(atts[k]) {
        assert saved + [] == saved;
        return saved, false;
      }
      ghost var rest := SaveAtts(w, atts[k + 1..], t + k + 1);
      assert saved + ([atts[k]] + rest.0) == saved + [atts[k]] + rest.0;
      saved := saved + [atts[k]];
    }
    assert saved + [] == saved;
  }

  // ---- ancestorByDB ----

  /** `ancestorByDB`: the recursion over stored blocks. */
  function AncestorByDB(blocks: Blocks, r: Root, slot: nat): Option<Root>
    requires ParentsEarlier(blocks)
    decreases Height(blocks, r)
  {
    if r !in blocks then None
    else
      assert ParentEarlier(blocks, r);
      if blocks[r].slot <= slot then Some(r) else AncestorByDB(blocks, blocks[r].parent, slot)
  }

  /** Every fork choice node is a stored block with the same slot and parent. */
  predicate Mirrors(t: Tree, blocks: Blocks) {
    forall r {:trigger r in t} :: r in t ==>
      && r in blocks && blocks[r].slot == t[r].slot
      && (t[r].parent.Some? ==> blocks[r].parent == t[r].parent.value)
  }

  /** The slow search in the database and the search in fork choice agree where both reach. */
  lemma {:induction false} DatabaseAgreesWithForkChoice(t: Tree, blocks: Blocks, r: Root, slot: nat)
    requires WellFormed(t) && ParentsEarlier(blocks) && Mirrors(t, blocks) && r in t
    ensures AncestorAt(t, r, slot).Some? ==> AncestorByDB(blocks, r, slot) == AncestorAt(t, r, slot)
    decreases t[r].slot
  {
    assert Linked(t, r) && ParentEarlier(blocks, r);
    if t[r].slot > slot && t[r].parent.Some? {
      DatabaseAgreesWithForkChoice(t, blocks, t[r].parent.value, slot);
    }
  }

  // ---- fillInForkChoiceMissingBlocks ----

  datatype Filled = NothingMissing | NotFound | NotDescendantOfFinalized | Insert(nodes: seq<Block>)

  /** What the fill-in loop has collected: newest first, all above finality and new to fork choice. */
  predicate IsPending(nodes: seq<Block>, blocks: Blocks, inDb: set<Root>, hasNode: set<Root>, fSlot: nat) {
    && nodes != []
    && IsNewestFirst(nodes)
    && forall i {:trigger nodes[i]} :: 0 < i < |nodes| ==>
         && nodes[i].root in blocks && nodes[i].root in inDb && nodes[i].root !in hasNode
         && nodes[i].slot == blocks[nodes[i].root].slot
         && nodes[i].parent == blocks[nodes[i].root].parent
         && nodes[i].slot > fSlot
  }

  /** Why the loop stopped at `root`. */
  predicate StopsAt(root: Root, blocks: Blocks, inDb: set<Root>, hasNode: set<Root>, fSlot: nat) {
    root in hasNode || root !in inDb || (root in blocks && blocks[root].slot <= fSlot)
  }

  /** The roots from `r` up along stored blocks, to and including the first one that is not stored. */
  function Line(blocks: Blocks, r: Root): (line: seq<Root>)
    requires ParentsEarlier(blocks)
    ensures line != [] && line[0] == r
    decreases Height(blocks, r)
  {
    if r !in blocks then [r]
    else
      assert ParentEarlier(blocks, r);
      [r] + Line(blocks, blocks[r].parent)
  }

  /** `line[j]` is the first root of the line where the walk stops. */
  predicate FirstStop(line: seq<Root>, j: nat, blocks: Blocks, inDb: set<Root>, hasNode: set<Root>, fSlot: nat) {
    j < |line| && StopsAt(line[j], blocks, inDb, hasNode, fSlot) && NoStop(line, j, blocks, inDb, hasNode, fSlot)
  }

  predicate NoStop(line: seq<Root>, n: nat, blocks: Blocks, inDb: set<Root>, hasNode: set<Root>, fSlot: nat)
    requires n <= |line|
  {
    forall i {:trigger line[i]} :: 0 <= i < n ==> !StopsAt(line[i], blocks, inDb, hasNode, fSlot)
  }

  lemma FirstStopIsUnique(
    line: seq<Root>, i: nat, j: nat, blocks: Blocks, inDb: set<Root>, hasNode: set<Root>, fSlot: nat)
    requires FirstStop(line, i, blocks, inDb, hasNode, fSlot) && FirstStop(line, j, blocks, inDb, hasNode, fSlot)
    ensures i == j
  {}

  /** The fill-in stops at `line[j]`, behind at least one missing block. */
  predicate StopsBehind(line: seq<Root>, j: nat, blocks: Blocks, inDb: set<Root>, hasNode: set<Root>, fSlot: nat) {
    j > 0 && FirstStop(line, j, blocks, inDb, hasNode, fSlot)
  }

  /**
    The four outcomes of the fill-in, by where the line of stored blocks first stops: at once, nowhere because
    a block that the database has cannot be loaded, behind missing blocks at a root that is finalized or in
    fork choice, or behind them elsewhere. What is inserted is the whole line up to the stop.
   */
  ghost predicate OutcomeIs(
    r: Filled, line: seq<Root>, blocks: Blocks, inDb: set<Root>, hasNode: set<Root>, fSlot: nat, finalizedRoot: Root)
  {
    && (r.NothingMissing? <==> FirstStop(line, 0, blocks, inDb, hasNode, fSlot))
    && (r.NotFound? <==> NoStop(line, |line|, blocks, inDb, hasNode, fSlot))
    && (r.Insert? <==>
          exists j: nat :: StopsBehind(line, j, blocks, inDb, hasNode, fSlot)
                           && (line[j] == finalizedRoot || line[j] in hasNode))
    && (r.NotDescendantOfFinalized? <==>
          exists j: nat :: StopsBehind(line, j, blocks, inDb, hasNode, fSlot)
                           && line[j] != finalizedRoot && line[j] !in hasNode)
    && (r.Insert? ==>
          && |r.nodes| >= 2 && StopsBehind(line, |r.nodes| - 1, blocks, inDb, hasNode, fSlot)
          && forall i {:trigger r.nodes[i]} :: 0 < i < |r.nodes| ==> r.nodes[i].root == line[i - 1])
  }

  lemma PendingGrows(
    nodes: seq<Block>, b: Block, blocks: Blocks, inDb: set<Root>, hasNode: set<Root>, fSlot: nat)
    requires IsPending(nodes, blocks, inDb, hasNode, fSlot)
    requires b.root in blocks && b.root in inDb && b.root !in hasNode
    requires b.slot == blocks[b.root].slot && b.parent == blocks[b.root].parent && b.slot > fSlot
    requires nodes[|nodes| - 1].parent == b.root && b.slot < nodes[|nodes| - 1].slot
    ensures IsPending(nodes + [b], blocks, inDb, hasNode, fSlot)
  {
    forall i | 0 <= i < |nodes| ensures Follows(nodes + [b], i) {
      assert i < |nodes| - 1 ==> Follows(nodes, i);
    }
  }

  /** Strictly falling slots make the roots of stored blocks distinct. */
  lemma PendingRootsDiffer(
    nodes: seq<Block>, blocks: Blocks, inDb: set<Root>, hasNode: set<Root>, fSlot: nat)
    requires IsPending(nodes, blocks, inDb, hasNode, fSlot)
    requires nodes[0].root in blocks ==> blocks[nodes[0].root].slot == nodes[0].slot
    ensures DistinctRoots(nodes)
  {
    forall i, j | 0 <= i < j < |nodes| ensures nodes[i].root != nodes[j].root {
      SlotsFall(nodes, i, j);
    }
  }

  lemma {:induction false} SlotsFall(nodes: seq<Block>, i: nat, j: nat)
    requires IsNewestFirst(nodes) && i < j < |nodes|
    ensures nodes[j].slot < nodes[i].slot
    decreases j
  {
    assert Follows(nodes, j - 1);
    if i < j - 1 {
      SlotsFall(nodes, i, j - 1);
    }
  }

  /**
    `fillInForkChoiceMissingBlocks` up to `InsertChain`. `blocks` is what `getBlock` finds
    (cache or database), `inDb` what `HasBlock` finds. The checkpoint parameters are in
    the order of the original's declaration.
   */
  method FillIn(
    blk: Block, fCheckpoint: Checkpoint, jCheckpoint: Checkpoint,
    blocks: Blocks, inDb: set<Root>, hasNode: set<Root>, fSlot: nat, finalizedRoot: Root)
    returns (r: Filled)
    requires ParentsEarlier(blocks)
    requires blk.parent in blocks ==> blocks[blk.parent].slot < blk.slot
    requires blk.root in blocks ==> blocks[blk.root].slot == blk.slot
    ensures OutcomeIs(r, Line(blocks, blk.parent), blocks, inDb, hasNode, fSlot, finalizedRoot)
    ensures r.Insert? ==>
      && |r.nodes| >= 2
      && r.nodes[0] == blk.(justified := jCheckpoint, finalized := fCheckpoint)
      && IsPending(r.nodes, blocks, inDb, hasNode, fSlot)
      && DistinctRoots(r.nodes)
      && (forall i :: 0 <= i < |r.nodes| ==>
            r.nodes[i].justified == jCheckpoint && r.nodes[i].finalized == fCheckpoint)
      && var oldest := r.nodes[|r.nodes| - 1];
         && (oldest.parent == finalizedRoot || oldest.parent in hasNode)
         && StopsAt(oldest.parent, blocks, inDb, hasNode, fSlot)
  {
    var pending := [blk.(justified := jCheckpoint, finalized := fCheckpoint)];
    var root := blk.parent;
    ghost var line := Line(blocks, blk.parent);
    assert line[0..] == line;
    while root !in hasNode && root in inDb
      invariant 1 <= |pending| <= |line| && Line(blocks, root) == line[|pending| - 1..]
      invariant NoStop(line, |pending| - 1, blocks, inDb, hasNode, fSlot)
      invariant forall i {:trigger pending[i]} :: 0 < i < |pending| ==> pending[i].root == line[i - 1]
      invariant IsPending(pending, blocks, inDb, hasNode, fSlot)
      invariant pending[0] == blk.(justified := jCheckpoint, finalized := fCheckpoint)
      invariant forall i :: 0 <= i < |pending| ==>
        pending[i].justified == jCheckpoint && pending[i].finalized == fCheckpoint
      invariant pending[|pending| - 1].parent == root
      invariant root in blocks ==> blocks[root].slot < pending[|pending| - 1].slot
      decreases Height(blocks, root)
    {
      assert line[|pending| - 1] == root;
      if root !in blocks {
        assert |line| == |pending|;
        return NotFound;
      }
      var b := blocks[root];
      assert ParentEarlier(blocks, root);
      if b.slot <= fSlot {
        break;
      }
      var args := Block(root, b.slot, b.parent, jCheckpoint, fCheckpoint);
      PendingGrows(pending, args, blocks, inDb, hasNode, fSlot);
      assert line[|pending| - 1..][1..] == line[|pending|..];
      pending := pending + [args];
      root := b.parent;
    }
    assert line[|pending| - 1] == root;
    assert FirstStop(line, |pending| - 1, blocks, inDb, hasNode, fSlot);
    forall j: nat | FirstStop(line, j, blocks, inDb, hasNode, fSlot) ensures j == |pending| - 1 {
      FirstStopIsUnique(line, j, |pending| - 1, blocks, inDb, hasNode, fSlot);
    }
    if |pending| == 1 {
      return NothingMissing;
    }
    if root != finalizedRoot && root !in hasNode {
      return NotDescendantOfFinalized;
    }
    PendingRootsDiffer(pending, blocks, inDb, hasNode, fSlot);
    return Filled.Insert(pending);
  }

  // ---- onBlockBatch ----

  /** A linear batch: each block builds on the one before it. */
  predicate IsLinear(blks: seq<Block>) {
    forall i :: 0 <= i < |blks| - 1 ==>
      blks[i + 1].parent == blks[i].root && blks[i].slot < blks[i + 1].slot
  }

  /** The batch in reverse order, each block with its own checkpoints. */
  method BatchNodes(blks: seq<Block>, jCheckpoints: seq<Checkpoint>, fCheckpoints: seq<Checkpoint>)
    returns (nodes: seq<Block>)
    requires |jCheckpoints| == |blks| == |fCheckpoints|
    ensures |nodes| == |blks|
    ensures forall i :: 0 <= i < |blks| ==>
      nodes[|blks| - i - 1] == blks[i].(justified := jCheckpoints[i], finalized := fCheckpoints[i])
    ensures IsLinear(blks) ==> IsNewestFirst(nodes)
  {
    var n := |blks|;
    if n == 0 {
      return [];
    }
    var pending := new Block[n](i => blks[0]);
    for i := 0 to n
      invariant forall k :: 0 <= k < i ==>
        pending[n - k - 1] == blks[k].(justified := jCheckpoints[k], finalized := fCheckpoints[k])
    {
      pending[n - i - 1] := blks[i].(justified := jCheckpoints[i], finalized := fCheckpoints[i]);
    }
    nodes := pending[..];
    if IsLinear(blks) {
      forall k | 0 <= k < n - 1
        ensures Follows(nodes, k)
      {
        var i := n - k - 2;
        assert blks[i + 1].parent == blks[i].root;
        assert nodes[n - i - 1] == nodes[k + 1] && nodes[n - (i + 1) - 1] == nodes[k];
      }
    }
  }
}
