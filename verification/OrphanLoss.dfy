/**
  What the early exit of `saveOrphanedOperations` costs: exactly when slashings, exits and address changes
  of orphaned blocks do not come back, said about the blocks on the walked path.
 */
module OrphanLoss {
  import opened Options
  import opened ForkTree
  import opened ChainWalks

  predicate AllStored(blocks: Blocks, path: seq<Root>) {
    forall k {:trigger path[k]} :: 0 <= k < |path| ==> path[k] in blocks
  }

  /** The stored blocks from `r` up to, and without, the common ancestor. */
  function Path(blocks: Blocks, r: Root, ancestor: Root): (path: seq<Root>)
    requires ParentsEarlier(blocks)
    ensures AllStored(blocks, path)
    decreases Height(blocks, r)
  {
    if r == ancestor || r !in blocks then []
    else
      assert ParentEarlier(blocks, r);
      [r] + Path(blocks, blocks[r].parent, ancestor)
  }

  /** Which clock reading the test of the i-th block takes; a block's attestations take one each. */
  function ReadAt(blocks: Blocks, path: seq<Root>, i: nat, t: nat): nat
    requires i < |path| && AllStored(blocks, path)
  {
    if i == 0 then t else ReadAt(blocks, path[1..], i - 1, t + 1 + |blocks[path[0]].atts|)
  }

  /** The i-th block is at least one epoch old when the walk looks at it. */
  predicate IsOld(w: World, path: seq<Root>, i: nat, t: nat)
    requires i < |path| && AllStored(w.blocks, path)
  {
    w.blocks[path[i]].slot + SLOTS_PER_EPOCH <= w.clock(ReadAt(w.blocks, path, i, t))
  }

  /** The pool rejects one of these attestations, which is recent enough when its turn comes. */
  predicate RejectsOne(w: World, atts: seq<Att>, t: nat) {
    exists k :: 0 <= k < |atts| && atts[k].slot + SLOTS_PER_EPOCH >= w.clock(t + k) && w.rejects(atts[k])
  }

  predicate RejectsAt(w: World, path: seq<Root>, i: nat, t: nat)
    requires i < |path| && AllStored(w.blocks, path)
  {
    RejectsOne(w, w.blocks[path[i]].atts, ReadAt(w.blocks, path, i, t) + 1)
  }

  predicate NoneRejected(w: World, path: seq<Root>, t: nat)
    requires AllStored(w.blocks, path)
  {
    forall i {:trigger RejectsAt(w, path, i, t)} :: 0 <= i < |path| ==> !RejectsAt(w, path, i, t)
  }

  /** Every block that is old when the walk looks at it carries nothing but attestations. */
  predicate OldOnesAreBare(w: World, path: seq<Root>, t: nat)
    requires AllStored(w.blocks, path)
  {
    forall i {:trigger IsOld(w, path, i, t)} ::
      0 <= i < |path| && IsOld(w, path, i, t) ==> w.blocks[path[i]].others == []
  }

  lemma {:induction false} SaveAttsFailsIff(w: World, atts: seq<Att>, t: nat)
    ensures !SaveAtts(w, atts, t).1 <==> RejectsOne(w, atts, t)
  {
    if atts != [] {
      SaveAttsFailsIff(w, atts[1..], t + 1);
      RejectsOneStep(w, atts, t);
    }
  }

  lemma RejectsOneStep(w: World, atts: seq<Att>, t: nat)
    requires atts != []
    ensures RejectsOne(w, atts, t) <==>
            (atts[0].slot + SLOTS_PER_EPOCH >= w.clock(t) && w.rejects(atts[0])) || RejectsOne(w, atts[1..], t + 1)
  {
    if RejectsOne(w, atts[1..], t + 1) {
      var k :| && 0 <= k < |atts| - 1
               && atts[1..][k].slot + SLOTS_PER_EPOCH >= w.clock(t + 1 + k) && w.rejects(atts[1..][k]);
      assert atts[k + 1] == atts[1..][k] && t + (k + 1) == t + 1 + k;
    }
    if RejectsOne(w, atts, t) {
      var k :| 0 <= k < |atts| && atts[k].slot + SLOTS_PER_EPOCH >= w.clock(t + k) && w.rejects(atts[k]);
      assert k > 0 ==> atts[1..][k - 1] == atts[k] && t + 1 + (k - 1) == t + k;
    }
  }

  /** The predicates of a path, split into its first block and the rest. */
  lemma PathStep(w: World, path: seq<Root>, t: nat)
    requires path != [] && AllStored(w.blocks, path)
    ensures var b := w.blocks[path[0]]; var t' := t + 1 + |b.atts|;
            && (IsOld(w, path, 0, t) <==> b.slot + SLOTS_PER_EPOCH <= w.clock(t))
            && (NoneRejected(w, path, t) <==> !RejectsOne(w, b.atts, t + 1) && NoneRejected(w, path[1..], t'))
            && (OldOnesAreBare(w, path, t) <==>
                  (IsOld(w, path, 0, t) ==> b.others == []) && OldOnesAreBare(w, path[1..], t'))
  {
    var t' := t + 1 + |w.blocks[path[0]].atts|;
    forall i | 0 < i < |path|
      ensures IsOld(w, path, i, t) == IsOld(w, path[1..], i - 1, t')
      ensures RejectsAt(w, path, i, t) == RejectsAt(w, path[1..], i - 1, t')
    {}
    assert RejectsAt(w, path, 0, t) == RejectsOne(w, w.blocks[path[0]].atts, t + 1);
    forall j | 0 <= j < |path[1..]|
      ensures IsOld(w, path[1..], j, t') == IsOld(w, path, j + 1, t)
      ensures RejectsAt(w, path[1..], j, t') == RejectsAt(w, path, j + 1, t)
    {}
  }

  /** The other operations of the blocks of a path, in walking order. */
  function OthersOf(blocks: Blocks, path: seq<Root>): seq<nat>
    requires AllStored(blocks, path)
  {
    if path == [] then [] else blocks[path[0]].others + OthersOf(blocks, path[1..])
  }

  lemma NoneRejectedStep(w: World, path: seq<Root>, t: nat)
    requires path != [] && AllStored(w.blocks, path) && NoneRejected(w, path, t)
    ensures var b := w.blocks[path[0]];
            && !RejectsOne(w, b.atts, t + 1) && AllStored(w.blocks, path[1..])
            && NoneRejected(w, path[1..], t + 1 + |b.atts|)
  {
    PathStep(w, path, t);
  }

  // What a full walk saves.

  /** The attestations that are no older than an epoch when their turn comes, in order. */
  function RecentOnes(w: World, atts: seq<Att>, t: nat): seq<Att> {
    if atts == [] then []
    else
      var n := |atts| - 1;
      RecentOnes(w, atts[..n], t) + if w.clock(t + n) <= atts[n].slot + SLOTS_PER_EPOCH then [atts[n]] else []
  }

  lemma {:induction false} RecentOnesFront(w: World, atts: seq<Att>, t: nat)
    requires atts != []
    ensures RecentOnes(w, atts, t) ==
            (if w.clock(t) <= atts[0].slot + SLOTS_PER_EPOCH then [atts[0]] else []) + RecentOnes(w, atts[1..], t + 1)
  {
    var n := |atts| - 1;
    if n == 0 {
      assert atts[..0] == [] && atts[1..] == [];
    } else {
      RecentOnesFront(w, atts[..n], t);
      assert atts[..n][1..] == atts[1..][..n - 1];
    }
  }

  /** Unless one is rejected, exactly the recent attestations of a block are saved, in order. */
  lemma {:induction false} SaveAttsSavesRecent(w: World, atts: seq<Att>, t: nat)
    requires !RejectsOne(w, atts, t)
    ensures SaveAtts(w, atts, t) == (RecentOnes(w, atts, t), true)
  {
    if atts != [] {
      RejectsOneStep(w, atts, t);
      SaveAttsSavesRecent(w, atts[1..], t + 1);
      RecentOnesFront(w, atts, t);
      assert [] + RecentOnes(w, atts[1..], t + 1) == RecentOnes(w, atts[1..], t + 1);
    }
  }

  /** An attestation of a block is saved exactly when it is recent at its reading. */
  lemma {:induction false} RecentOnesHas(w: World, atts: seq<Att>, t: nat, a: Att)
    ensures a in RecentOnes(w, atts, t) <==>
            exists k :: 0 <= k < |atts| && atts[k] == a && w.clock(t + k) <= a.slot + SLOTS_PER_EPOCH
  {
    if atts != [] {
      var n := |atts| - 1;
      RecentOnesHas(w, atts[..n], t, a);
      if exists k :: 0 <= k < |atts| && atts[k] == a && w.clock(t + k) <= a.slot + SLOTS_PER_EPOCH {
        var k :| 0 <= k < |atts| && atts[k] == a && w.clock(t + k) <= a.slot + SLOTS_PER_EPOCH;
        assert k < n ==> atts[..n][k] == a;
      }
    }
  }

  /** The recent attestations of the blocks of a path, in walking order. */
  function RecentOf(w: World, path: seq<Root>, t: nat): seq<Att>
    requires AllStored(w.blocks, path)
  {
    if path == [] then []
    else
      var atts := w.blocks[path[0]].atts;
      RecentOnes(w, atts, t + 1) + RecentOf(w, path[1..], t + 1 + |atts|)
  }

  /** Walking up from `r` along stored blocks leads to the ancestor. */
  predicate Reaches(blocks: Blocks, r: Root, ancestor: Root)
    requires ParentsEarlier(blocks)
    decreases Height(blocks, r)
  {
    r == ancestor || (r in blocks && (assert ParentEarlier(blocks, r); Reaches(blocks, blocks[r].parent, ancestor)))
  }

  /**
    A full walk without a rejection saves, block by block up to the ancestor, exactly the attestations no older
    than an epoch when read and all other operations, and fails only if a block is missing on the way.
   */
  lemma {:induction false} FullWalkSaves(w: World, r: Root, ancestor: Root, t: nat)
    requires ParentsEarlier(w.blocks) && NoneRejected(w, Path(w.blocks, r, ancestor), t)
    ensures var path := Path(w.blocks, r, ancestor);
            Walk(w, r, ancestor, t, false) ==
            Saved(RecentOf(w, path, t), OthersOf(w.blocks, path),
                  if Reaches(w.blocks, r, ancestor) then None else Some(BlockNotFound))
    decreases Height(w.blocks, r)
  {
    if r != ancestor && r in w.blocks {
      var b := w.blocks[r];
      var path := Path(w.blocks, r, ancestor);
      assert ParentEarlier(w.blocks, r);
      assert path[1..] == Path(w.blocks, b.parent, ancestor);
      NoneRejectedStep(w, path, t);
      SaveAttsSavesRecent(w, b.atts, t + 1);
      FullWalkSaves(w, b.parent, ancestor, t + 1 + |b.atts|);
    }
  }

  predicate RunsOn(w: World, r: Root, t: nat) {
    r in w.blocks ==> w.blocks[r].slot + SLOTS_PER_EPOCH <= w.clock(t)
  }

  /** Slots fall and the clock rises: behind an old block everything is old when it is looked at. */
  lemma OldGoesOn(w: World, r: Root, t: nat)
    requires ParentsEarlier(w.blocks) && ClockRuns(w) && r in w.blocks && RunsOn(w, r, t)
    ensures RunsOn(w, w.blocks[r].parent, t + 1 + |w.blocks[r].atts|)
  {
    assert ParentEarlier(w.blocks, r);
    assert w.clock(t) <= w.clock(t + 1 + |w.blocks[r].atts|);
  }

  /** From an old block on, a full walk saves the others of every block. */
  lemma {:induction false} OldWalk(w: World, r: Root, ancestor: Root, t: nat)
    requires ParentsEarlier(w.blocks) && AttsEarlier(w.blocks) && ClockRuns(w) && RunsOn(w, r, t)
    ensures Walk(w, r, ancestor, t, false).others == OthersOf(w.blocks, Path(w.blocks, r, ancestor))
    decreases Height(w.blocks, r)
  {
    if r != ancestor && r in w.blocks {
      var b := w.blocks[r];
      assert ParentEarlier(w.blocks, r);
      OldGoesOn(w, r, t);
      OldWalk(w, b.parent, ancestor, t + 1 + |b.atts|);
      assert w.clock(t) <= w.clock(t + 1);
      OldAttsAreSkipped(w, b.atts, t + 1, b.slot);
    }
  }

  /** On the path behind an old block nothing is rejected, and bare old blocks are all of them. */
  lemma {:induction false} OldPath(w: World, r: Root, ancestor: Root, t: nat)
    requires ParentsEarlier(w.blocks) && AttsEarlier(w.blocks) && ClockRuns(w) && RunsOn(w, r, t)
    ensures var path := Path(w.blocks, r, ancestor);
            NoneRejected(w, path, t) && (OldOnesAreBare(w, path, t) <==> OthersOf(w.blocks, path) == [])
    decreases Height(w.blocks, r)
  {
    if r != ancestor && r in w.blocks {
      var b := w.blocks[r];
      var path := Path(w.blocks, r, ancestor);
      assert ParentEarlier(w.blocks, r);
      assert path[1..] == Path(w.blocks, b.parent, ancestor);
      OldGoesOn(w, r, t);
      OldPath(w, b.parent, ancestor, t + 1 + |b.atts|);
      OldBlockRejectsNothing(w, r, t);
      PathStep(w, path, t);
    }
  }

  lemma OldBlockRejectsNothing(w: World, r: Root, t: nat)
    requires AttsEarlier(w.blocks) && ClockRuns(w) && r in w.blocks && RunsOn(w, r, t)
    ensures !RejectsOne(w, w.blocks[r].atts, t + 1)
  {
    assert w.clock(t) <= w.clock(t + 1);
    OldAttsAreSkipped(w, w.blocks[r].atts, t + 1, w.blocks[r].slot);
    SaveAttsFailsIff(w, w.blocks[r].atts, t + 1);
  }

  lemma CommonPrefix(p: seq<nat>, a: seq<nat>, b: seq<nat>)
    requires a <= b
    ensures p + a <= p + b && (p + a == p + b <==> a == b)
  {
    if p + a == p + b {
      assert a == (p + a)[|p|..] && b == (p + b)[|p|..];
    }
  }

  /** A recent block: what the two walks save from its parent on decides, unless the pool ends both here. */
  lemma RecentBlock(w: World, r: Root, ancestor: Root, t: nat, restKept: bool)
    requires ParentsEarlier(w.blocks) && r != ancestor && r in w.blocks && !RunsOn(w, r, t)
    requires var b := w.blocks[r]; var t' := t + 1 + |b.atts|;
             var early, full := Walk(w, b.parent, ancestor, t', true), Walk(w, b.parent, ancestor, t', false);
             early.others <= full.others && (early.others == full.others <==> restKept)
    ensures var early, full := Walk(w, r, ancestor, t, true), Walk(w, r, ancestor, t, false);
            && early.others <= full.others
            && (early.others == full.others <==> !SaveAtts(w, w.blocks[r].atts, t + 1).1 || restKept)
  {
    var b := w.blocks[r];
    var t' := t + 1 + |b.atts|;
    assert ParentEarlier(w.blocks, r);
    CommonPrefix(b.others, Walk(w, b.parent, ancestor, t', true).others,
                 Walk(w, b.parent, ancestor, t', false).others);
  }

  /** The condition of the theorem, for the path from `r`. */
  predicate KeepsOthers(w: World, path: seq<Root>, t: nat)
    requires AllStored(w.blocks, path)
  {
    !NoneRejected(w, path, t) || OldOnesAreBare(w, path, t)
  }

  lemma KeepsOthersRecent(w: World, path: seq<Root>, t: nat)
    requires path != [] && AllStored(w.blocks, path) && !RunsOn(w, path[0], t)
    ensures var b := w.blocks[path[0]];
            KeepsOthers(w, path, t) <==>
            !SaveAtts(w, b.atts, t + 1).1 || KeepsOthers(w, path[1..], t + 1 + |b.atts|)
  {
    PathStep(w, path, t);
    SaveAttsFailsIff(w, w.blocks[path[0]].atts, t + 1);
  }

  /** What the theorem says of the walk from `r`. */
  predicate ExitKeepsIff(w: World, r: Root, ancestor: Root, t: nat)
    requires ParentsEarlier(w.blocks)
  {
    var early, full := Walk(w, r, ancestor, t, true), Walk(w, r, ancestor, t, false);
    && early.others <= full.others
    && (early.others == full.others <==> KeepsOthers(w, Path(w.blocks, r, ancestor), t))
  }

  lemma ExitAtOnce(w: World, r: Root, ancestor: Root, t: nat)
    requires ParentsEarlier(w.blocks) && AttsEarlier(w.blocks) && ClockRuns(w)
    requires r == ancestor || r !in w.blocks || RunsOn(w, r, t)
    ensures ExitKeepsIff(w, r, ancestor, t)
  {
    if r != ancestor && r in w.blocks {
      OldWalk(w, r, ancestor, t);
      OldPath(w, r, ancestor, t);
    }
  }

  lemma ExitLater(w: World, r: Root, ancestor: Root, t: nat)
    requires ParentsEarlier(w.blocks) && r != ancestor && r in w.blocks && !RunsOn(w, r, t)
    requires ExitKeepsIff(w, w.blocks[r].parent, ancestor, t + 1 + |w.blocks[r].atts|)
    ensures ExitKeepsIff(w, r, ancestor, t)
  {
    var path := Path(w.blocks, r, ancestor);
    assert ParentEarlier(w.blocks, r);
    assert path[1..] == Path(w.blocks, w.blocks[r].parent, ancestor);
    RecentBlock(w, r, ancestor, t, KeepsOthers(w, path[1..], t + 1 + |w.blocks[r].atts|));
    KeepsOthersRecent(w, path, t);
  }

  lemma {:induction false} ExitKeeps(w: World, r: Root, ancestor: Root, t: nat)
    requires ParentsEarlier(w.blocks) && AttsEarlier(w.blocks) && ClockRuns(w)
    ensures ExitKeepsIff(w, r, ancestor, t)
    decreases Height(w.blocks, r)
  {
    if r == ancestor || r !in w.blocks || RunsOn(w, r, t) {
      ExitAtOnce(w, r, ancestor, t);
    } else {
      assert ParentEarlier(w.blocks, r);
      ExitKeeps(w, w.blocks[r].parent, ancestor, t + 1 + |w.blocks[r].atts|);
      ExitLater(w, r, ancestor, t);
    }
  }

  /**
    The early exit saves a prefix of the other operations. It saves all that a full walk would save exactly
    when the pool rejects an attestation on the way, which ends both walks, or every block that is at least
    one epoch old when the walk reaches it carries none.
   */
  lemma EarlyExitKeepsOthersIff(w: World, r: Root, ancestor: Root, t: nat)
    requires ParentsEarlier(w.blocks) && AttsEarlier(w.blocks) && ClockRuns(w)
    ensures Walk(w, r, ancestor, t, true).others <= Walk(w, r, ancestor, t, false).others
    ensures Walk(w, r, ancestor, t, true).others == Walk(w, r, ancestor, t, false).others
            <==> KeepsOthers(w, Path(w.blocks, r, ancestor), t)
  {
    ExitKeeps(w, r, ancestor, t);
  }

  /** At a fixed current slot and with a pool that takes everything, only the blocks themselves matter. */
  lemma EarlyExitKeepsOthersAtSlot(w: World, r: Root, ancestor: Root, t: nat, now: nat)
    requires ParentsEarlier(w.blocks) && AttsEarlier(w.blocks)
    requires (forall i :: w.clock(i) == now) && (forall a :: !w.rejects(a))
    ensures var path := Path(w.blocks, r, ancestor);
            Walk(w, r, ancestor, t, true).others == Walk(w, r, ancestor, t, false).others
            <==> forall i :: 0 <= i < |path| && w.blocks[path[i]].slot + SLOTS_PER_EPOCH <= now
                   ==> w.blocks[path[i]].others == []
  {
    EarlyExitKeepsOthersIff(w, r, ancestor, t);
    var path := Path(w.blocks, r, ancestor);
    forall i: nat | i < |path|
      ensures IsOld(w, path, i, t) <==> w.blocks[path[i]].slot + SLOTS_PER_EPOCH <= now
      ensures !RejectsAt(w, path, i, t)
    {}
  }

  /** An exit an epoch behind loses a slashing that a full walk would have re-inserted. */
  lemma EarlyExitCanLoseASlashing(w: World, slashing: nat)
    requires w.blocks == map[7 := Body(1, 9, [], [slashing])]
    requires forall i :: w.clock(i) == 33
    ensures ParentsEarlier(w.blocks)
    ensures Walk(w, 7, 9, 0, true).others == [] && Walk(w, 7, 9, 0, false).others == [slashing]
  {
    assert Walk(w, 9, 9, 1, false) == Saved([], [], None);
  }
}
