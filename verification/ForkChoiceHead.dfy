/**
  The head of the available-attestation fork choice: which nodes it is chosen from, what vouches for it, and
  what an insertion does to it.
 */
module ForkChoiceHead {
  import opened Options
  import opened ForkTree
  import opened ForkPruning
  import opened ForkChoice
  import opened ForkChoiceRuns

  /** `viableForHead` and `stabled`. */
  predicate Ready(s: Store, r: Root)
    requires r in s.tree
  {
    s.tree[r].stable && (s.justified.epoch == s.tree[r].justifiedEpoch || s.justified.epoch == 0)
  }

  /** `tips`, `viableForHead` and `stabled`: the nodes the head is chosen from. */
  predicate Eligible(s: Store, r: Root) {
    r in s.tree && s.tree[r].children == [] && Ready(s, r)
  }

  /** Deeper wins; at equal depth the later slot wins. */
  predicate AtMost(t: Tree, x: Root, y: Root)
    requires WellFormed(t) && x in t && y in t
  {
    Depth(t, x) < Depth(t, y) || (Depth(t, x) == Depth(t, y) && t[x].slot <= t[y].slot)
  }

  ghost predicate IsBest(s: Store, h: Root, candidates: set<Root>)
    requires WellFormed(s.tree) && candidates <= s.tree.Keys
  {
    h in candidates && forall x :: x in candidates ==> AtMost(s.tree, x, h)
  }

  ghost function Candidates(s: Store): set<Root> {
    set r | r in s.tree && Eligible(s, r)
  }

  /** What `updateBestDescendant` leaves in `headNode`. */
  ghost predicate HeadOk(s: Store, head: Option<Root>)
    requires WellFormed(s.tree) && s.treeRoot.Some? && s.treeRoot.value in s.tree
  {
    if s.tree[s.treeRoot.value].children == [] || Candidates(s) == {} then head.None?
    else head.Some? && IsBest(s, head.value, Candidates(s))
  }

  /** A node in the tips has no child in the tree. */
  lemma EligibleIsLeaf(s: Store, h: Root, c: Root)
    requires Structure(s) && Eligible(s, h) && c in s.tree
    ensures s.tree[c].parent != Some(h)
  {
    assert IsListed(s.tree, c);
  }

  /**
    The head always carries available attestations: unless its parent is the genesis-slot
    block or it has no parent in the store, at least 256 distinct validators attested to
    the parent.
   */
  lemma HeadIsBacked(s: Store, h: Root)
    requires Inv(s) && Eligible(s, h)
    ensures var p := s.tree[h].parent;
            p.Some? ==>
              (p.value in s.tree && (s.tree[p.value].slot == 0 || |s.tree[p.value].voters| >= 256))
  {
    assert Backed(s.tree, h) && Linked(s.tree, h);
  }

  /** So over every run in which no block re-enters, for every block the head can be. */
  lemma HeadsAreBacked(stores: seq<Store>, ops: seq<Op>, n: nat, h: Root)
    requires IsRun(stores, ops) && n <= |ops| && NoReentry(stores, ops, n) && Eligible(stores[n], h)
    ensures var t := stores[n].tree;
            t[h].parent.Some? ==>
              var p := t[h].parent.value;
              p in t && (t[p].slot == 0 || |t[p].voters| >= 256)
  {
    RunKeepsInv(stores, ops, n);
    HeadIsBacked(stores[n], h);
  }

  // What the removal of an invalid block does to the candidates.

  /**
    The candidates below the removed block go with it, the others stay, and its parent becomes one exactly when
    that block was all it listed and it is stable and viable.
   */
  lemma RemovalMovesCandidates(s: Store, x: Root, r: Root)
    requires Structure(s) && x in s.tree && s.tree[x].parent.Some?
    ensures var p := s.tree[x].parent.value;
            && p in s.tree
            && (r in Candidates(Invalidate(s, x)) <==>
                  (r in Candidates(s) && !IsAncestor(s.tree, x, r))
                  || (r == p && s.tree[p].children == [x] && Ready(s, p)))
  {
    var p, t' := s.tree[x].parent.value, Invalidate(s, x).tree;
    assert Linked(s.tree, x) && IsListed(s.tree, x);
    RemoveCuts(s.tree, x);
    ParentIsNotBelow(s.tree, x, p);
    if r in t' {
      assert KeepsNode(s.tree, t', None, r);
      RemoveUnlists(s.tree, x, r);
      OnlyListed(t'[r].children, s.tree[r].children, x);
    }
  }

  /** Taking one listing out of a list leaves nothing exactly when it was the only one. */
  lemma OnlyListed(rest: seq<Root>, all: seq<Root>, x: Root)
    ensures multiset(rest) + multiset{x} == multiset(all) ==> (rest == [] <==> all == [x])
  {
    if multiset(rest) + multiset{x} == multiset(all) {
      assert |rest| + 1 == |all| by {
        assert |multiset(rest) + multiset{x}| == |multiset(all)|;
      }
      assert x in multiset(all);
    }
  }

  // What an insertion does to the head.

  /** The new block is a candidate: it is stable and its justified epoch is the store's. */
  predicate Promoted(s: Store, b: Block)
    requires b.parent in s.tree
  {
    StableOn(s, b.parent) && (s.justified.epoch == b.justified.epoch || s.justified.epoch == 0)
  }

  /** A new block on a known parent. */
  predicate Extending(s: Store, b: Block) {
    Structure(s) && ConsistentBlock(s, b) && b.root !in s.tree && b.parent in s.tree
  }

  /** The store after the insertion, which has happened after genesis and so chooses the head anew. */
  function After(s: Store, b: Block): (s': Store)
    requires Extending(s, b)
    ensures Structure(s') && s'.treeRoot == s.treeRoot && s'.treeRoot.Some?
  {
    InsertKeepsStructure(s, b, false);
    Inserted(s, b, false)
  }

  /** The parent leaves the candidates whether the block is stable or not; the block joins them if promoted. */
  lemma InsertMovesCandidates(s: Store, b: Block, beforeGenesis: bool)
    requires Extending(s, b)
    ensures Candidates(Inserted(s, b, beforeGenesis)) ==
            Candidates(s) - {b.parent} + if !beforeGenesis && Promoted(s, b) then {b.root} else {}
  {
    var s' := Inserted(s, b, beforeGenesis);
    assert s'.tree[b.parent].children != [];
    forall x ensures x in Candidates(s') <==>
                     x in Candidates(s) - {b.parent} || (x == b.root && !beforeGenesis && Promoted(s, b))
    {
      if x in s.tree && x != b.parent {
        assert s'.tree[x] == s.tree[x];
      }
    }
  }

  lemma {:induction false} WalksKept(t: Tree, t': Tree, a: Root, r: Root)
    requires WellFormed(t) && WellFormed(t') && Extends(t, t') && r in t
    ensures r in t' && Depth(t', r) == Depth(t, r)
    ensures IsAncestor(t', a, r) <==> IsAncestor(t, a, r)
    decreases t[r].slot
  {
    assert Linked(t, r);
    assert r in t';
    if t[r].parent.Some? {
      WalksKept(t, t', a, t[r].parent.value);
    }
  }

  /** Old nodes keep their depth and slot; the new block is one deeper than its parent. */
  lemma InsertKeepsDepths(s: Store, b: Block, x: Root)
    requires Extending(s, b)
    ensures var t' := After(s, b).tree;
            && (x in s.tree ==> x in t' && Depth(t', x) == Depth(s.tree, x) && t'[x].slot == s.tree[x].slot)
            && b.root in t' && Depth(t', b.root) == Depth(s.tree, b.parent) + 1 && t'[b.root].slot == b.slot
  {
    var t' := After(s, b).tree;
    InsertedIsWellFormed(s, b, false);
    WalksKept(s.tree, t', b.parent, b.parent);
    if x in s.tree {
      WalksKept(s.tree, t', x, x);
    }
  }

  /** Exactly when an insertion leaves no head at all. */
  lemma NoHeadAfterInsertIff(s: Store, b: Block, h': Option<Root>)
    requires Extending(s, b) && HeadOk(After(s, b), h')
    ensures h'.None? <==>
            (s.tree[s.treeRoot.value].children == [] && b.parent != s.treeRoot.value)
            || (Candidates(s) <= {b.parent} && !Promoted(s, b))
  {
    InsertMovesCandidates(s, b, false);
    var root := s.treeRoot.value;
    assert After(s, b).tree[root].children
        == if root == b.parent then s.tree[root].children + [b.root] else s.tree[root].children;
  }

  /** The new block is deeper than `h`, or as deep with a later slot. */
  predicate Ahead(s: Store, b: Block, h: Root)
    requires WellFormed(s.tree) && b.parent in s.tree && h in s.tree
  {
    var d := Depth(s.tree, b.parent) + 1;
    d > Depth(s.tree, h) || (d == Depth(s.tree, h) && b.slot > s.tree[h].slot)
  }

  predicate Level(s: Store, b: Block, h: Root)
    requires WellFormed(s.tree) && b.parent in s.tree && h in s.tree
  {
    Depth(s.tree, b.parent) + 1 == Depth(s.tree, h) && b.slot == s.tree[h].slot
  }

  /**
    The heads that the insertion of `b` can leave when `h` was a head. A promoted block that extends the head
    or is ahead of it takes over. Otherwise a head that is extended gives way to the best of the other
    candidates, if there are any; and one that is not stays among the best, next to a promoted block that
    draws level. Map iteration chooses among equals.
   */
  ghost predicate NewHead(s: Store, b: Block, h: Root, h': Option<Root>)
    requires Extending(s, b) && h in Candidates(s)
  {
    if Promoted(s, b) && (b.parent == h || Ahead(s, b, h)) then h' == Some(b.root)
    else if b.parent == h then
      if Candidates(s) == {h} then h'.None? else h'.Some? && IsBest(s, h'.value, Candidates(s) - {h})
    else
      && h'.Some?
      && ((IsBest(s, h'.value, Candidates(s)) && h'.value != b.parent)
          || (Promoted(s, b) && Level(s, b, h) && h'.value == b.root))
  }

  /** Exactly these heads are left, for every head before and every block. */
  lemma HeadAfterInsertIff(s: Store, b: Block, h: Root, h': Option<Root>)
    requires Extending(s, b) && HeadOk(s, Some(h))
    ensures HeadOk(After(s, b), h') <==> NewHead(s, b, h, h')
  {
    InsertMovesCandidates(s, b, false);
    assert After(s, b).tree[s.treeRoot.value].children != [];
    if h'.None? {
      var old_, new_ := Candidates(s) - {b.parent}, Candidates(After(s, b));
      assert h in Candidates(s) && (b.parent != h ==> h in new_);
      assert Promoted(s, b) ==> b.root in new_;
      assert old_ == {} && b.parent == h ==> Candidates(s) == {h};
      assert Candidates(s) == {h} && b.parent == h ==> old_ == {};
    } else {
      BestAfterInsertIff(s, b, h, h'.value);
    }
  }

  lemma BestAfterInsertIff(s: Store, b: Block, h: Root, x: Root)
    requires Extending(s, b) && IsBest(s, h, Candidates(s))
    ensures IsBest(After(s, b), x, Candidates(After(s, b))) <==> NewHead(s, b, h, Some(x))
  {
    InsertMovesCandidates(s, b, false);
    var old_, new_ := Candidates(s) - {b.parent}, Candidates(After(s, b));
    if x in old_ {
      BestAmongOld(s, b, h, x, old_);
    }
    if x == b.root && Promoted(s, b) {
      BestIsNew(s, b, h, old_);
    }
    assert x in new_ <==> x in old_ || (x == b.root && Promoted(s, b));
  }

  /** `x` is no worse than the old candidates that remain, as before the insertion. */
  ghost predicate BeatsOld(s: Store, old_: set<Root>, x: Root)
    requires WellFormed(s.tree) && old_ <= s.tree.Keys && x in s.tree
  {
    forall y :: y in old_ ==> AtMost(s.tree, y, x)
  }

  /** An old candidate is best exactly when it beats the old ones and a promoted block is not ahead of it. */
  lemma BestAmongOld(s: Store, b: Block, h: Root, x: Root, old_: set<Root>)
    requires Extending(s, b) && IsBest(s, h, Candidates(s)) && old_ == Candidates(s) - {b.parent} && x in old_
    ensures IsBest(After(s, b), x, Candidates(After(s, b)))
       <==> BeatsOld(s, old_, x) && !(Promoted(s, b) && Ahead(s, b, x))
    ensures b.parent != h ==> (BeatsOld(s, old_, x) <==> IsBest(s, x, Candidates(s)))
    ensures b.parent == h && Promoted(s, b) ==> Ahead(s, b, x)
    ensures b.parent != h && BeatsOld(s, old_, x) ==> (Ahead(s, b, x) <==> Ahead(s, b, h))
  {
    InsertMovesCandidates(s, b, false);
    var t', new_ := After(s, b).tree, Candidates(After(s, b));
    InsertKeepsDepths(s, b, x);
    forall y | y in old_ ensures y in t' && (AtMost(t', y, x) <==> AtMost(s.tree, y, x)) {
      InsertKeepsDepths(s, b, y);
    }
    assert b.root in t' && (AtMost(t', b.root, x) <==> !Ahead(s, b, x));
    assert AtMost(s.tree, x, h);
    if b.parent != h && BeatsOld(s, old_, x) {
      assert h in old_ && AtMost(s.tree, h, x);
      forall y | y in Candidates(s) ensures AtMost(s.tree, y, x) {
        assert AtMost(s.tree, y, h);
      }
    }
  }

  /** A promoted block is best exactly when it extends the head, or is ahead of it or level with it. */
  lemma BestIsNew(s: Store, b: Block, h: Root, old_: set<Root>)
    requires Extending(s, b) && IsBest(s, h, Candidates(s)) && old_ == Candidates(s) - {b.parent} && Promoted(s, b)
    ensures IsBest(After(s, b), b.root, Candidates(After(s, b)))
       <==> b.parent == h || Ahead(s, b, h) || Level(s, b, h)
  {
    InsertMovesCandidates(s, b, false);
    var t' := After(s, b).tree;
    InsertKeepsDepths(s, b, h);
    forall y | y in old_
      ensures y in t' && b.root in t' && AtMost(s.tree, y, h)
      ensures AtMost(t', y, b.root) <==> Ahead(s, b, y) || Level(s, b, y)
    {
      InsertKeepsDepths(s, b, y);
    }
    assert AtMost(t', b.root, b.root);
    assert b.parent != h ==> h in old_;
  }

  /** A head can stay exactly when it is not extended and no promoted block gets ahead of it. */
  lemma HeadStaysIff(s: Store, b: Block, h: Root)
    requires Extending(s, b) && HeadOk(s, Some(h))
    ensures HeadOk(After(s, b), Some(h)) <==> b.parent != h && !(Promoted(s, b) && Ahead(s, b, h))
  {
    HeadAfterInsertIff(s, b, h, Some(h));
  }

  /** No stored block descends from a candidate. */
  lemma NothingAboveCandidate(s: Store, h: Root, x: Root)
    requires Structure(s) && Eligible(s, h) && x in s.tree && x != h
    ensures !IsAncestor(s.tree, h, x)
  {
    if IsAncestor(s.tree, h, x) {
      var c := ChildOnPath(s.tree, h, x);
      EligibleIsLeaf(s, h, c);
    }
  }

  /**
    A block that is not promoted unseats a head exactly when it is a child of it. Then there is no head left
    if the old one was the only candidate; otherwise the head falls back to another fork, onto a candidate
    that was not better before.
   */
  lemma UnstableChildUnseatsHead(s: Store, b: Block, h: Root, h': Option<Root>)
    requires Extending(s, b) && HeadOk(s, Some(h)) && HeadOk(After(s, b), h') && !Promoted(s, b)
    ensures HeadOk(After(s, b), Some(h)) <==> b.parent != h
    ensures b.parent == h ==> (h'.None? <==> Candidates(s) == {h})
    ensures b.parent == h && h'.Some? ==>
            && h'.value in Candidates(s) && AtMost(s.tree, h'.value, h)
            && !IsAncestor(s.tree, h, h'.value) && h'.value != h
  {
    HeadStaysIff(s, b, h);
    HeadAfterInsertIff(s, b, h, h');
    if b.parent == h && h'.Some? {
      NothingAboveCandidate(s, h, h'.value);
    }
  }

  // A run: two forks on the genesis block, the one with the later slot leading.

  /** The genesis block and a first child. */
  function FirstFork(cp: Checkpoint): Store {
    Inserted(Inserted(EMPTY_STORE, Block(1, 0, 0, cp, cp), false), Block(2, 1, 1, cp, cp), false)
  }

  function SecondFork(cp: Checkpoint): Store {
    Inserted(FirstFork(cp), Block(3, 2, 1, cp, cp), false)
  }

  lemma FirstForkFacts(cp: Checkpoint)
    requires cp.epoch == 0
    ensures var s := FirstFork(cp);
            && Structure(s) && s.tree.Keys == {1, 2} && s.treeRoot == Some(1) && Candidates(s) == {2}
            && s.tree[1].slot == 0 && s.votes.counts.None? && s.justified.epoch == 0
  {
    var s0 := Inserted(EMPTY_STORE, Block(1, 0, 0, cp, cp), false);
    InsertKeepsStructure(EMPTY_STORE, Block(1, 0, 0, cp, cp), false);
    InsertKeepsStructure(s0, Block(2, 1, 1, cp, cp), false);
    assert Candidates(s0) == {1};
    InsertMovesCandidates(s0, Block(2, 1, 1, cp, cp), false);
  }

  lemma SecondForkFacts(cp: Checkpoint)
    requires cp.epoch == 0
    ensures var s := SecondFork(cp);
            && Structure(s) && s.tree.Keys == {1, 2, 3} && s.treeRoot == Some(1) && Candidates(s) == {2, 3}
            && s.votes.counts.None? && s.justified.epoch == 0 && s.tree[3].slot == 2
            && HeadOk(s, Some(3))
  {
    FirstForkFacts(cp);
    var b := Block(3, 2, 1, cp, cp);
    InsertKeepsStructure(FirstFork(cp), b, false);
    InsertMovesCandidates(FirstFork(cp), b, false);
    var t := SecondFork(cp).tree;
    assert Depth(t, 1) == 0 && Depth(t, 2) == 1 && Depth(t, 3) == 1;
  }

  /** A child of the head that no attestation supports sends the head to the other fork. */
  lemma HeadFallsBackToOtherFork(cp: Checkpoint)
    requires cp.epoch == 0
    ensures var s, b := SecondFork(cp), Block(4, 3, 3, cp, cp);
            && Structure(s) && s.treeRoot == Some(1) && HeadOk(s, Some(3))
            && Extending(s, b) && HeadOk(After(s, b), Some(2)) && !HeadOk(After(s, b), Some(3))
  {
    SecondForkFacts(cp);
    var s, b := SecondFork(cp), Block(4, 3, 3, cp, cp);
    assert Candidates(s) - {3} == {2};
    HeadAfterInsertIff(s, b, 3, Some(2));
    HeadStaysIff(s, b, 3);
  }
}
