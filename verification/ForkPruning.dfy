/**
  Removing subtrees from the fork choice store: the depth-first deletion of `prune` and of `removeNode`,
  proved to delete exactly the nodes it should.
 */
module ForkPruning {
  import opened Options
  import opened ForkTree

  /** Every listed child that is still in the tree points back to its parent. */
  predicate ListsItsChildren(t: Tree, p: Root)
    requires p in t
  {
    forall c :: c in t[p].children && c in t ==> t[c].parent == Some(p)
  }

  /** Every node is in its parent's list of children. */
  predicate IsListed(t: Tree, c: Root)
    requires c in t
  {
    var p := t[c].parent;
    p.Some? && p.value in t ==> c in t[p.value].children
  }

  predicate ChildrenOk(t: Tree) {
    && (forall p {:trigger ListsItsChildren(t, p)} :: p in t ==> ListsItsChildren(t, p))
    && (forall c {:trigger IsListed(t, c)} :: c in t ==> IsListed(t, c))
  }

  /** The nodes at or above a slot: what is left to visit shrinks towards the leaves. */
  ghost function From(t: Tree, slot: nat): set<Root> {
    set x | x in t && t[x].slot >= slot
  }

  lemma FromShrinks(t: Tree, p: Root, c: Root)
    requires p in t && c in t && t[p].slot < t[c].slot
    ensures From(t, t[c].slot) < From(t, t[p].slot)
  {
    assert p in From(t, t[p].slot) && p !in From(t, t[c].slot);
  }

  /** The depth-first deletion from `r` that stops at `stop`: the roots it deletes. */
  function Deleted(t: Tree, r: Root, stop: Option<Root>): set<Root>
    requires WellFormed(t) && ChildrenOk(t) && r in t
    decreases From(t, t[r].slot), 1, 0
  {
    if stop == Some(r) then {} else {r} + DeletedBelow(t, r, t[r].children, stop)
  }

  function DeletedBelow(t: Tree, p: Root, children: seq<Root>, stop: Option<Root>): set<Root>
    requires WellFormed(t) && ChildrenOk(t) && p in t
    requires forall c :: c in children ==> c in t[p].children
    decreases From(t, t[p].slot), 0, |children|
  {
    if children == [] then {}
    else
      var c := children[0];
      var rest := DeletedBelow(t, p, children[1..], stop);
      if c !in t then rest
      else
        assert ListsItsChildren(t, p) && Linked(t, c);
        FromShrinks(t, p, c);
        Deleted(t, c, stop) + rest
  }

  /** The next node on the way from an ancestor down to `x`. */
  lemma {:induction false} ChildOnPath(t: Tree, a: Root, x: Root) returns (c: Root)
    requires WellFormed(t) && ChildrenOk(t) && x in t && IsAncestor(t, a, x) && a != x
    ensures a in t && c in t && t[c].parent == Some(a) && c in t[a].children && IsAncestor(t, c, x)
    decreases t[x].slot
  {
    AncestorSlots(t, a, x);
    assert Linked(t, x) && IsListed(t, x);
    if t[x].parent.value == a {
      c := x;
    } else {
      c := ChildOnPath(t, a, t[x].parent.value);
    }
  }

  /** The way from `r` down to `x` passes through `stop`. */
  predicate Spared(t: Tree, r: Root, stop: Option<Root>, x: Root)
    requires WellFormed(t) && x in t
  {
    stop.Some? && stop.value in t && IsAncestor(t, r, stop.value) && IsAncestor(t, stop.value, x)
  }

  lemma SparedByChild(t: Tree, r: Root, c: Root, stop: Option<Root>, x: Root)
    requires WellFormed(t) && r in t && c in t && x in t
    requires t[c].parent == Some(r) && IsAncestor(t, c, x) && stop != Some(r)
    ensures Spared(t, r, stop, x) <==> Spared(t, c, stop, x)
  {
    assert Linked(t, c);
    if Spared(t, r, stop, x) {
      AncestorsAreChain(t, c, stop.value, x);
      if IsAncestor(t, stop.value, c) && stop.value != c {
        AncestorSlots(t, r, stop.value);
        AncestorSlots(t, stop.value, r);
      }
    }
    if Spared(t, c, stop, x) {
      AncestorIsTransitive(t, r, c, stop.value);
    }
  }

  /** The deletion removes exactly the subtree of `r` except the subtree of `stop`. */
  lemma {:induction false} DeletedExactly(t: Tree, r: Root, stop: Option<Root>, x: Root)
    requires WellFormed(t) && ChildrenOk(t) && r in t && x in t
    ensures x in Deleted(t, r, stop) <==> IsAncestor(t, r, x) && !Spared(t, r, stop, x)
    decreases From(t, t[r].slot), 1, 0
  {
    if stop != Some(r) {
      DeletedBelowExactly(t, r, t[r].children, stop, x);
      if x == r {
        if Spared(t, r, stop, x) {
          AncestorSlots(t, r, stop.value);
          AncestorSlots(t, stop.value, r);
        }
      } else if IsAncestor(t, r, x) {
        var c := ChildOnPath(t, r, x);
      }
    }
  }

  lemma {:induction false} DeletedBelowExactly(
    t: Tree, p: Root, children: seq<Root>, stop: Option<Root>, x: Root)
    requires WellFormed(t) && ChildrenOk(t) && p in t && x in t && stop != Some(p)
    requires forall c :: c in children ==> c in t[p].children
    ensures x in DeletedBelow(t, p, children, stop) <==>
      (exists c :: c in children && c in t && IsAncestor(t, c, x)) && !Spared(t, p, stop, x)
    ensures x in DeletedBelow(t, p, children, stop) ==> IsAncestor(t, p, x) && x != p
    decreases From(t, t[p].slot), 0, |children|
  {
    if children != [] {
      var c := children[0];
      DeletedBelowExactly(t, p, children[1..], stop, x);
      assert children == [c] + children[1..];
      if c in t {
        assert ListsItsChildren(t, p) && Linked(t, c);
        FromShrinks(t, p, c);
        DeletedExactly(t, c, stop, x);
        if IsAncestor(t, c, x) {
          SparedByChild(t, p, c, stop, x);
          AncestorIsTransitive(t, p, c, x);
          AncestorSlots(t, c, x);
        }
      }
    }
  }

  lemma {:induction false} DeletedInTree(t: Tree, r: Root, stop: Option<Root>)
    requires WellFormed(t) && ChildrenOk(t) && r in t
    ensures Deleted(t, r, stop) <= t.Keys
    decreases From(t, t[r].slot), 1, 0
  {
    if stop != Some(r) {
      DeletedBelowInTree(t, r, t[r].children, stop);
    }
  }

  lemma {:induction false} DeletedBelowInTree(t: Tree, p: Root, children: seq<Root>, stop: Option<Root>)
    requires WellFormed(t) && ChildrenOk(t) && p in t
    requires forall c :: c in children ==> c in t[p].children
    ensures DeletedBelow(t, p, children, stop) <= t.Keys
    decreases From(t, t[p].slot), 0, |children|
  {
    if children != [] {
      var c := children[0];
      DeletedBelowInTree(t, p, children[1..], stop);
      if c in t {
        assert ListsItsChildren(t, p) && Linked(t, c);
        FromShrinks(t, p, c);
        DeletedInTree(t, c, stop);
      }
    }
  }

  /**
    What a removal may do to the links: nodes only disappear, every remaining node keeps
    its slot, voters and stability, and it keeps its parent too unless it is the `cut`
    node, all of whose proper ancestors are gone.
   */
  predicate KeepsNode(t: Tree, t': Tree, cut: Option<Root>, r: Root)
    requires WellFormed(t) && r in t && r in t'
  {
    && t'[r].slot == t[r].slot
    && t'[r].voters == t[r].voters
    && t'[r].stable == t[r].stable
    && t'[r].justifiedEpoch == t[r].justifiedEpoch
    && t'[r].finalizedEpoch == t[r].finalizedEpoch
    && if cut == Some(r)
       then
         && t'[r].parent.None?
         && t'[r].target == (if t[r].target == Some(r) then t[r].target else None)
         && NoProperAncestor(t, t', r)
       else
         && t'[r].parent == t[r].parent
         && t'[r].target == t[r].target
         && (t[r].parent.Some? ==> t[r].parent.value in t')
  }

  predicate NoProperAncestor(t: Tree, t': Tree, r: Root)
    requires WellFormed(t) && r in t
  {
    forall a :: a in t' && IsAncestor(t, a, r) ==> a == r
  }

  predicate Cuts(t: Tree, t': Tree, cut: Option<Root>)
    requires WellFormed(t)
  {
    && t'.Keys <= t.Keys
    && forall r {:trigger KeepsNode(t, t', cut, r)} :: r in t' ==> KeepsNode(t, t', cut, r)
  }

  lemma CutIsWellFormed(t: Tree, t': Tree, cut: Option<Root>)
    requires WellFormed(t) && Cuts(t, t', cut)
    ensures WellFormed(t')
  {
    forall r | r in t' ensures Linked(t', r) {
      assert KeepsNode(t, t', cut, r) && Linked(t, r);
      if t'[r].parent.Some? {
        assert KeepsNode(t, t', cut, t[r].parent.value);
      }
    }
  }

  /** Searches in what remains agree with searches before, as far as they still reach. */
  lemma {:induction false} CutAncestorAt(t: Tree, t': Tree, cut: Option<Root>, r: Root, slot: nat)
    requires WellFormed(t) && Cuts(t, t', cut) && WellFormed(t') && r in t'
    ensures AncestorAt(t', r, slot).Some? ==> AncestorAt(t', r, slot) == AncestorAt(t, r, slot)
    ensures AncestorAt(t', r, slot).None? && AncestorAt(t, r, slot).Some? ==>
      AncestorAt(t, r, slot).value !in t'
    decreases t[r].slot
  {
    assert KeepsNode(t, t', cut, r) && Linked(t, r);
    if t[r].slot > slot && t[r].parent.Some? {
      if cut == Some(r) {
        if AncestorAt(t, r, slot).Some? {
          AncestorAtIsAncestor(t, t[r].parent.value, slot);
          AncestorSlots(t, AncestorAt(t, r, slot).value, t[r].parent.value);
        }
      } else {
        CutAncestorAt(t, t', cut, t[r].parent.value, slot);
      }
    }
  }

  lemma CutKeepsTarget(t: Tree, t': Tree, cut: Option<Root>, r: Root)
    requires WellFormed(t) && TargetsOk(t) && Cuts(t, t', cut) && WellFormed(t') && r in t'
    ensures TargetOk(t', r)
  {
    assert KeepsNode(t, t', cut, r) && TargetOk(t, r);
    CutAncestorAt(t, t', cut, r, EpochStart(Epoch(t[r].slot)));
  }

  lemma CutKeepsTargets(t: Tree, t': Tree, cut: Option<Root>)
    requires WellFormed(t) && TargetsOk(t) && Cuts(t, t', cut)
    ensures WellFormed(t') && TargetsOk(t')
  {
    CutIsWellFormed(t, t', cut);
    forall r | r in t' ensures TargetOk(t', r) {
      CutKeepsTarget(t, t', cut, r);
    }
  }

  /** Children that the finalized checkpoint has ruled out: not after its epoch start. */
  function LateFree(t: Tree, children: seq<Root>, maxSlot: nat): (r: seq<Root>)
    ensures forall c :: c in r <==> c in children && c in t && t[c].slot <= maxSlot
  {
    if children == [] then []
    else
      var c, rest := children[0], LateFree(t, children[1..], maxSlot);
      if c in t && t[c].slot <= maxSlot then [c] + rest else rest
  }

  /** The two sets of roots that `prune` deletes. */
  function PruneGone(t: Tree, treeRoot: Root, f: Root, maxSlot: nat): set<Root>
    requires WellFormed(t) && ChildrenOk(t) && treeRoot in t && f in t
  {
    Deleted(t, treeRoot, Some(f))
    + if t[f].slot == maxSlot then {}
      else DeletedBelow(t, f, LateFree(t, t[f].children, maxSlot), None)
  }

  /**
    `prune` with finalized node `f`, which becomes the root. Nothing below `f` changes in
    the first deletion, so both deletions are evaluated on the same tree.
   */
  function Pruned(t: Tree, treeRoot: Root, f: Root, maxSlot: nat): Tree
    requires WellFormed(t) && ChildrenOk(t) && treeRoot in t && f in t
  {
    var root := t[f].(parent := None, target := if t[f].target == Some(f) then Some(f) else None);
    t[f := root] - PruneGone(t, treeRoot, f, maxSlot)
  }

  /** `x` hangs below a child of `f` that finality has ruled out. */
  ghost predicate RuledOut(t: Tree, f: Root, maxSlot: nat, x: Root)
    requires WellFormed(t) && f in t && x in t
  {
    && t[f].slot != maxSlot
    && exists c :: c in t[f].children && c in t && t[c].slot <= maxSlot && IsAncestor(t, c, x)
  }

  /** Exactly the nodes that compete with the finalized one are deleted. */
  lemma PruneGoneExactly(t: Tree, treeRoot: Root, f: Root, maxSlot: nat, x: Root)
    requires WellFormed(t) && ChildrenOk(t) && treeRoot in t && f in t && x in t
    requires IsAncestor(t, treeRoot, f)
    ensures x in PruneGone(t, treeRoot, f, maxSlot) <==>
      (IsAncestor(t, treeRoot, x) && !IsAncestor(t, f, x)) || RuledOut(t, f, maxSlot, x)
  {
    DeletedExactly(t, treeRoot, Some(f), x);
    if t[f].slot != maxSlot {
      DeletedBelowExactly(t, f, LateFree(t, t[f].children, maxSlot), None, x);
    }
  }

  /** The finalized node itself stays, and everything left below the old root descends from it. */
  lemma FinalizedStays(t: Tree, treeRoot: Root, f: Root, maxSlot: nat)
    requires WellFormed(t) && ChildrenOk(t) && treeRoot in t && f in t && IsAncestor(t, treeRoot, f)
    ensures f in Pruned(t, treeRoot, f, maxSlot)
  {
    PruneGoneExactly(t, treeRoot, f, maxSlot, f);
    if RuledOut(t, f, maxSlot, f) {
      var c :| c in t[f].children && c in t && IsAncestor(t, c, f);
      assert ListsItsChildren(t, f) && Linked(t, c);
      AncestorSlots(t, c, f);
    }
  }

  lemma PruneKeepsNode(t: Tree, treeRoot: Root, f: Root, maxSlot: nat, r: Root)
    requires WellFormed(t) && ChildrenOk(t) && treeRoot in t && f in t
    requires IsAncestor(t, treeRoot, f) && t[treeRoot].parent.None?
    requires r in Pruned(t, treeRoot, f, maxSlot)
    ensures KeepsNode(t, Pruned(t, treeRoot, f, maxSlot), Some(f), r)
  {
    var t' := Pruned(t, treeRoot, f, maxSlot);
    PruneGoneExactly(t, treeRoot, f, maxSlot, r);
    if r == f {
      forall a | a in t' && IsAncestor(t, a, f) ensures a == f {
        PruneGoneExactly(t, treeRoot, f, maxSlot, a);
        AncestorsAreChain(t, treeRoot, a, f);
        AncestorSlots(t, a, f);
        if a != f && IsAncestor(t, f, a) {
          AncestorSlots(t, f, a);
        }
      }
    } else if t[r].parent.Some? {
      assert Linked(t, r);
      var p := t[r].parent.value;
      PruneGoneExactly(t, treeRoot, f, maxSlot, p);
      RuledOutBelow(t, f, maxSlot, p, r);
    }
  }

  lemma RuledOutBelow(t: Tree, f: Root, maxSlot: nat, p: Root, r: Root)
    requires WellFormed(t) && f in t && p in t && r in t && t[r].parent == Some(p)
    ensures RuledOut(t, f, maxSlot, p) ==> RuledOut(t, f, maxSlot, r)
  {
    if RuledOut(t, f, maxSlot, p) {
      var c :| c in t[f].children && c in t && t[c].slot <= maxSlot && IsAncestor(t, c, p);
      assert IsAncestor(t, c, r);
    }
  }

  lemma FinalizedParentGoes(t: Tree, treeRoot: Root, f: Root, maxSlot: nat, p: Root)
    requires WellFormed(t) && ChildrenOk(t) && treeRoot in t && f in t
    requires IsAncestor(t, treeRoot, f) && t[treeRoot].parent.None?
    requires t[f].parent == Some(p)
    ensures p !in Pruned(t, treeRoot, f, maxSlot)
  {
    FinalizedStays(t, treeRoot, f, maxSlot);
    PruneKeepsNode(t, treeRoot, f, maxSlot, f);
    assert Linked(t, f);
    assert IsAncestor(t, p, p);
    assert IsAncestor(t, p, f);
  }

  /** Pruning is a cut at the finalized node. */
  lemma PruneCuts(t: Tree, treeRoot: Root, f: Root, maxSlot: nat)
    requires WellFormed(t) && ChildrenOk(t) && treeRoot in t && f in t
    requires IsAncestor(t, treeRoot, f) && t[treeRoot].parent.None?
    ensures Cuts(t, Pruned(t, treeRoot, f, maxSlot), Some(f))
  {
    forall r | r in Pruned(t, treeRoot, f, maxSlot)
      ensures KeepsNode(t, Pruned(t, treeRoot, f, maxSlot), Some(f), r)
    {
      PruneKeepsNode(t, treeRoot, f, maxSlot, r);
    }
  }

  lemma PruneKeepsChildren(t: Tree, treeRoot: Root, f: Root, maxSlot: nat)
    requires WellFormed(t) && ChildrenOk(t) && treeRoot in t && f in t
    requires IsAncestor(t, treeRoot, f) && t[treeRoot].parent.None?
    ensures ChildrenOk(Pruned(t, treeRoot, f, maxSlot))
  {
    var t' := Pruned(t, treeRoot, f, maxSlot);
    if t[f].parent.Some? {
      FinalizedParentGoes(t, treeRoot, f, maxSlot, t[f].parent.value);
    }
    forall p | p in t' ensures ListsItsChildren(t', p) {
      assert ListsItsChildren(t, p);
      forall c | c in t'[p].children && c in t' ensures t'[c].parent == Some(p) {
        PruneKeepsNode(t, treeRoot, f, maxSlot, c);
      }
    }
    forall c | c in t' ensures IsListed(t', c) {
      assert IsListed(t, c);
      PruneKeepsNode(t, treeRoot, f, maxSlot, c);
    }
  }

  /** `removeNode`'s swap-removal from the parent's child list: a listed node loses exactly one listing. */
  function Unlisted(children: seq<Root>, x: Root): (r: seq<Root>)
    ensures x in children ==> multiset(r) + multiset{x} == multiset(children)
  {
    if |children| == 1 then
      assert x in children ==> children == [x];
      []
    else UnlistedFrom(children, x, 0)
  }

  function UnlistedFrom(children: seq<Root>, x: Root, i: nat): (r: seq<Root>)
    requires i <= |children| && x !in children[..i]
    ensures if x in children then multiset(r) + multiset{x} == multiset(children) else r == children
    decreases |children| - i
  {
    if i == |children| then
      assert children[..i] == children;
      children
    else if children[i] == x then
      SwapRemoveTakesOne(children, i);
      children[i := children[|children| - 1]][..|children| - 1]
    else
      assert children[..i + 1] == children[..i] + [children[i]];
      UnlistedFrom(children, x, i + 1)
  }

  lemma SwapRemoveTakesOne(children: seq<Root>, i: nat)
    requires i < |children|
    ensures var r := children[i := children[|children| - 1]][..|children| - 1];
            multiset(r) + multiset{children[i]} == multiset(children)
  {
    var n := |children| - 1;
    var r := children[i := children[n]][..n];
    if i == n {
      assert children == r + [children[i]];
    } else {
      assert r == children[..i] + [children[n]] + children[i + 1..n];
      assert children == children[..i] + [children[i]] + children[i + 1..n] + [children[n]];
    }
  }

  lemma UnlistedHas(children: seq<Root>, x: Root, c: Root)
    requires x in children
    ensures c in Unlisted(children, x) ==> c in children
    ensures c != x ==> (c in children <==> c in Unlisted(children, x))
  {
    assert c in multiset(children) <==> c in children;
    assert c in multiset(Unlisted(children, x)) <==> c in Unlisted(children, x);
  }

  /** `removeNode`: the node is unlisted at its parent and its whole subtree is deleted. */
  function Removed(t: Tree, x: Root): Tree
    requires WellFormed(t) && ChildrenOk(t) && x in t && t[x].parent.Some?
  {
    assert Linked(t, x);
    var p := t[x].parent.value;
    t[p := t[p].(children := Unlisted(t[p].children, x))] - Deleted(t, x, None)
  }

  lemma RemoveCuts(t: Tree, x: Root)
    requires WellFormed(t) && ChildrenOk(t) && x in t && t[x].parent.Some?
    ensures Cuts(t, Removed(t, x), None)
    ensures forall y :: y in Removed(t, x) <==> y in t && !IsAncestor(t, x, y)
  {
    assert Linked(t, x);
    var t' := Removed(t, x);
    forall y | y in t ensures y in t' <==> !IsAncestor(t, x, y) {
      DeletedExactly(t, x, None, y);
    }
    forall r | r in t' ensures KeepsNode(t, t', None, r) {
      assert Linked(t, r);
    }
  }

  /** The parent lists the removed node once less; no other node that is left lists it, or changes its list. */
  lemma RemoveUnlists(t: Tree, x: Root, q: Root)
    requires WellFormed(t) && ChildrenOk(t) && x in t && t[x].parent.Some? && q in Removed(t, x)
    ensures q in t
    ensures multiset(Removed(t, x)[q].children) + (if t[x].parent == Some(q) then multiset{x} else multiset{})
            == multiset(t[q].children)
    ensures t[x].parent != Some(q) ==> Removed(t, x)[q].children == t[q].children && x !in t[q].children
  {
    assert Linked(t, x) && IsListed(t, x);
    assert ListsItsChildren(t, q);
  }

  lemma RemoveListsLess(t: Tree, x: Root, q: Root, c: Root)
    requires WellFormed(t) && ChildrenOk(t) && x in t && t[x].parent.Some? && q in Removed(t, x)
    ensures q in t && (c in Removed(t, x)[q].children ==> c in t[q].children)
  {
    RemoveUnlists(t, x, q);
    assert c in multiset(Removed(t, x)[q].children) ==> c in multiset(t[q].children);
  }

  lemma RemoveKeepsChildren(t: Tree, x: Root)
    requires WellFormed(t) && ChildrenOk(t) && x in t && t[x].parent.Some?
    ensures ChildrenOk(Removed(t, x))
  {
    RemoveCuts(t, x);
    var t' := Removed(t, x);
    var p := t[x].parent.value;
    assert Linked(t, x) && IsListed(t, x);
    forall c ensures c in Unlisted(t[p].children, x) ==> c in t[p].children
      ensures c != x ==> (c in t[p].children <==> c in Unlisted(t[p].children, x))
    {
      UnlistedHas(t[p].children, x, c);
    }
    forall q | q in t' ensures ListsItsChildren(t', q) {
      assert ListsItsChildren(t, q);
      forall c | c in t'[q].children && c in t' ensures t'[c].parent == Some(q) {
        assert KeepsNode(t, t', None, c);
        assert c in t[q].children;
      }
    }
    forall c | c in t' ensures IsListed(t', c) {
      assert IsListed(t, c) && KeepsNode(t, t', None, c);
      assert c != x;
    }
  }
}
