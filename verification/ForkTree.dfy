/**
  The block tree of the fork choice store (`doubly-linked-tree`): nodes linked to their parent, and
  the walks along those links. A node pointer of the original is the node's root here,
  so the pointer graph is a map from roots to nodes.
 */
module ForkTree {
  import opened Options

  type Root = nat

  const SLOTS_PER_EPOCH: nat := 32

  datatype Node = Node(
    slot: nat,
    parent: Option<Root>,
    target: Option<Root>,
    children: seq<Root>,
    justifiedEpoch: nat,
    finalizedEpoch: nat,
    stable: bool,
    voters: set<nat>)

  type Tree = map<Root, Node>

  /** Parents are in the tree and have smaller slots. */
  predicate Linked(t: Tree, r: Root)
    requires r in t
  {
    var p := t[r].parent;
    p.Some? ==> p.value in t && t[p.value].slot < t[r].slot
  }

  predicate WellFormed(t: Tree) {
    forall r {:trigger Linked(t, r)} :: r in t ==> Linked(t, r)
  }

  /** `a` is `r` or one of its ancestors. */
  predicate IsAncestor(t: Tree, a: Root, r: Root)
    requires WellFormed(t) && r in t
    decreases t[r].slot
  {
    assert Linked(t, r);
    a == r || (t[r].parent.Some? && IsAncestor(t, a, t[r].parent.value))
  }

  /** Number of links from `r` to the root of its tree. */
  function Depth(t: Tree, r: Root): nat
    requires WellFormed(t) && r in t
    decreases t[r].slot
  {
    assert Linked(t, r);
    if t[r].parent.None? then 0 else 1 + Depth(t, t[r].parent.value)
  }

  lemma {:induction false} AncestorSlots(t: Tree, a: Root, r: Root)
    requires WellFormed(t) && r in t && IsAncestor(t, a, r)
    ensures a in t
    ensures a != r ==> t[a].slot < t[r].slot && Depth(t, a) < Depth(t, r)
    decreases t[r].slot
  {
    assert Linked(t, r);
    if a != r {
      AncestorSlots(t, a, t[r].parent.value);
    }
  }

  lemma {:induction false} AncestorIsTransitive(t: Tree, a: Root, b: Root, r: Root)
    requires WellFormed(t) && r in t && IsAncestor(t, b, r) && b in t && IsAncestor(t, a, b)
    ensures IsAncestor(t, a, r)
    decreases t[r].slot
  {
    assert Linked(t, r);
    if b != r {
      AncestorIsTransitive(t, a, b, t[r].parent.value);
    }
  }

  /** The ancestors of a node form a chain. */
  lemma {:induction false} AncestorsAreChain(t: Tree, a: Root, b: Root, r: Root)
    requires WellFormed(t) && r in t && IsAncestor(t, a, r) && IsAncestor(t, b, r)
    ensures a in t && b in t && (IsAncestor(t, a, b) || IsAncestor(t, b, a))
    decreases t[r].slot
  {
    assert Linked(t, r);
    AncestorSlots(t, a, r);
    AncestorSlots(t, b, r);
    if a != r && b != r {
      AncestorsAreChain(t, a, b, t[r].parent.value);
    }
  }

  /** `depth()`: count the links up to the root. */
  method ComputeDepth(t: Tree, r: Root) returns (depth: nat)
    requires WellFormed(t) && r in t
    ensures depth == Depth(t, r)
  {
    depth := 0;
    assert Linked(t, r);
    var node := t[r].parent;
    while node.Some?
      invariant node.Some? ==> node.value in t
      invariant depth + (if node.Some? then 1 + Depth(t, node.value) else 0) == Depth(t, r)
      decreases node.Some?, if node.Some? then t[node.value].slot else 0
    {
      depth := depth + 1;
      assert Linked(t, node.value);
      node := t[node.value].parent;
    }
  }

  /** The nearest ancestor-or-self of `r` whose slot is at most `slot` (`get_ancestor`). */
  function AncestorAt(t: Tree, r: Root, slot: nat): Option<Root>
    requires WellFormed(t) && r in t
    decreases t[r].slot
  {
    assert Linked(t, r);
    if t[r].slot <= slot then Some(r)
    else if t[r].parent.None? then None
    else AncestorAt(t, t[r].parent.value, slot)
  }

  /** What `AncestorAt` means: every ancestor in the slot range is above or at the answer. */
  lemma {:induction false} AncestorAtIsNearest(t: Tree, r: Root, slot: nat, x: Root)
    requires WellFormed(t) && r in t
    requires IsAncestor(t, x, r) && x in t && t[x].slot <= slot
    ensures var a := AncestorAt(t, r, slot);
            a.Some? && a.value in t && IsAncestor(t, a.value, r)
            && t[a.value].slot <= slot && IsAncestor(t, x, a.value)
    decreases t[r].slot
  {
    assert Linked(t, r);
    if t[r].slot > slot {
      AncestorAtIsNearest(t, t[r].parent.value, slot, x);
    }
  }

  lemma {:induction false} AncestorAtIsAncestor(t: Tree, r: Root, slot: nat)
    requires WellFormed(t) && r in t && AncestorAt(t, r, slot).Some?
    ensures var a := AncestorAt(t, r, slot).value;
            a in t && IsAncestor(t, a, r) && t[a].slot <= slot
    decreases t[r].slot
  {
    assert Linked(t, r);
    if t[r].slot > slot {
      AncestorAtIsAncestor(t, t[r].parent.value, slot);
    }
  }

  datatype WalkError = UnknownRoot | NoAncestor

  /** `AncestorRoot`. */
  method AncestorRoot(t: Tree, root: Root, slot: nat) returns (r: Result<Root, WalkError>)
    requires WellFormed(t)
    ensures r == if root !in t then Err(UnknownRoot)
                 else var a := AncestorAt(t, root, slot);
                      if a.Some? then Ok(a.value) else Err(NoAncestor)
  {
    if root !in t {
      return Err(UnknownRoot);
    }
    var n: Option<Root> := Some(root);
    while n.Some? && t[n.value].slot > slot
      invariant n.Some? ==> n.value in t
      invariant AncestorAt(t, root, slot) == if n.Some? then AncestorAt(t, n.value, slot) else None
      decreases n.Some?, if n.Some? then t[n.value].slot else 0
    {
      assert Linked(t, n.value);
      n := t[n.value].parent;
    }
    return if n.None? then Err(NoAncestor) else Ok(n.value);
  }

  /**
    `IsCanonical`: does the head descend from `root`? `nodes` are all node objects, those in the store and
    those that pruning has taken out of it but that the cached head still reaches.
   */
  method IsCanonical(nodes: Tree, stored: set<Root>, head: Option<Root>, root: Root) returns (canonical: bool)
    requires WellFormed(nodes) && stored <= nodes.Keys && (head.Some? ==> head.value in nodes)
    ensures canonical <==> root in stored && head.Some? && IsAncestor(nodes, root, head.value)
  {
    if root !in stored {
      return false;
    }
    var leaf := head;
    while leaf.Some? && nodes[leaf.value].slot >= nodes[root].slot
      invariant leaf.Some? ==> leaf.value in nodes
      invariant (head.Some? && IsAncestor(nodes, root, head.value))
           <==> (leaf.Some? && IsAncestor(nodes, root, leaf.value))
      decreases leaf.Some?, if leaf.Some? then nodes[leaf.value].slot else 0
    {
      if leaf.value == root {
        return true;
      }
      assert Linked(nodes, leaf.value);
      leaf := nodes[leaf.value].parent;
    }
    if leaf.Some? && IsAncestor(nodes, root, leaf.value) {
      AncestorSlots(nodes, root, leaf.value);
    }
    return false;
  }

  predicate IsCommonAncestor(t: Tree, x: Root, r1: Root, r2: Root)
    requires WellFormed(t) && r1 in t && r2 in t
  {
    IsAncestor(t, x, r1) && IsAncestor(t, x, r2)
  }

  /** Lowest common ancestor: a common ancestor below every other one. */
  ghost predicate IsLowestCommonAncestor(t: Tree, c: Root, r1: Root, r2: Root)
    requires WellFormed(t) && r1 in t && r2 in t
  {
    && c in t
    && IsCommonAncestor(t, c, r1, r2)
    && forall x :: IsCommonAncestor(t, x, r1, r2) ==> IsAncestor(t, x, c)
  }

  /** Stepping the node with the larger slot loses no common ancestor. */
  lemma StepKeepsCommonAncestors(t: Tree, x: Root, up: Root, stay: Root)
    requires WellFormed(t) && up in t && stay in t && up != stay && t[up].slot >= t[stay].slot
    requires IsCommonAncestor(t, x, up, stay)
    ensures t[up].parent.Some? && t[up].parent.value in t && IsAncestor(t, x, t[up].parent.value)
  {
    assert Linked(t, up);
    if x == up {
      AncestorSlots(t, x, stay);
    }
  }

  /**
    `CommonAncestor`: the slot-guided walk finds the lowest common ancestor; it reports
    an unknown ancestor exactly when a root is not in the store or none exists.
   */
  method CommonAncestor(t: Tree, r1: Root, r2: Root) returns (c: Option<Root>)
    requires WellFormed(t)
    ensures c.Some? ==> r1 in t && r2 in t && IsLowestCommonAncestor(t, c.value, r1, r2)
    ensures c.None? <==> r1 !in t || r2 !in t || forall x :: !IsCommonAncestor(t, x, r1, r2)
  {
    if r1 !in t {
      return None;
    }
    if r1 == r2 {
      assert IsCommonAncestor(t, r1, r1, r2);
      return Some(r1);
    }
    if r2 !in t {
      return None;
    }
    var n1, n2 := r1, r2;
    while true
      invariant n1 in t && n2 in t && n1 != n2
      invariant IsAncestor(t, n1, r1) && IsAncestor(t, n2, r2)
      invariant forall x :: IsCommonAncestor(t, x, r1, r2) ==> IsCommonAncestor(t, x, n1, n2)
      decreases t[n1].slot + t[n2].slot
    {
      ghost var m1, m2 := n1, n2;
      if t[n1].slot > t[n2].slot {
        forall x | IsCommonAncestor(t, x, r1, r2)
          ensures t[m1].parent.Some? && t[m1].parent.value in t && IsAncestor(t, x, t[m1].parent.value)
        {
          StepKeepsCommonAncestors(t, x, m1, m2);
        }
        assert Linked(t, n1);
        if t[n1].parent.None? {
          return None;
        }
        n1 := t[n1].parent.value;
        AncestorIsTransitive(t, n1, m1, r1);
      } else {
        forall x | IsCommonAncestor(t, x, r1, r2)
          ensures t[m2].parent.Some? && t[m2].parent.value in t && IsAncestor(t, x, t[m2].parent.value)
        {
          StepKeepsCommonAncestors(t, x, m2, m1);
        }
        assert Linked(t, n2);
        if t[n2].parent.None? {
          return None;
        }
        n2 := t[n2].parent.value;
        AncestorIsTransitive(t, n2, m2, r2);
      }
      if n1 == n2 {
        assert IsCommonAncestor(t, n1, r1, r2);
        return Some(n1);
      }
    }
  }

  function Epoch(slot: nat): nat {
    slot / SLOTS_PER_EPOCH
  }

  function EpochStart(epoch: nat): nat {
    epoch * SLOTS_PER_EPOCH
  }

  /** The checkpoint block of `epoch` on the chain of `r`, as the specification defines it. */
  function CheckpointRoot(t: Tree, r: Root, epoch: nat): Option<Root>
    requires WellFormed(t) && r in t
  {
    AncestorAt(t, r, EpochStart(epoch))
  }

  /**
    The stored target pointer is the checkpoint block of the node's own epoch. After
    pruning that block may be gone; the pointer is then stale and leads nowhere.
   */
  predicate TargetOk(t: Tree, r: Root)
    requires WellFormed(t) && r in t
  {
    var c := CheckpointRoot(t, r, Epoch(t[r].slot));
    t[r].target == c || (c.None? && t[r].target.Some? && t[r].target.value !in t)
  }

  predicate TargetsOk(t: Tree)
    requires WellFormed(t)
  {
    forall r {:trigger TargetOk(t, r)} :: r in t ==> TargetOk(t, r)
  }

  /** Looking past a checkpoint is the same from the node and from the checkpoint block. */
  lemma {:induction false} AncestorAtSkips(t: Tree, r: Root, high: nat, low: nat)
    requires WellFormed(t) && r in t && low <= high
    ensures AncestorAt(t, r, high).None? ==> AncestorAt(t, r, low).None?
    ensures AncestorAt(t, r, high).Some? ==>
      var a := AncestorAt(t, r, high).value;
      a in t && AncestorAt(t, r, low) == AncestorAt(t, a, low)
    decreases t[r].slot
  {
    assert Linked(t, r);
    if t[r].slot > high && t[r].parent.Some? {
      AncestorAtSkips(t, t[r].parent.value, high, low);
    }
  }

  datatype Target = Found(root: Root) | ZeroRoot | NilNode

  /** `TargetRootForEpoch`: jump from target to target instead of walking block by block. */
  function TargetRootForEpoch(t: Tree, root: Root, epoch: nat): Target
    requires WellFormed(t) && TargetsOk(t)
    decreases if root in t then t[root].slot + 1 else 0
  {
    if root !in t then NilNode
    else
      var nodeEpoch := Epoch(t[root].slot);
      if epoch > nodeEpoch then Found(root)
      else if t[root].target.None? then ZeroRoot
      else
        var targetRoot := t[root].target.value;
        if epoch == nodeEpoch then Found(targetRoot)
        else if targetRoot !in t then NilNode
        else
          TargetIsHigher(t, root);
          assert Linked(t, targetRoot);
          if nodeEpoch == Epoch(t[targetRoot].slot) then
            if t[targetRoot].parent.None? then NilNode
            else TargetRootForEpoch(t, t[targetRoot].parent.value, epoch)
          else TargetRootForEpoch(t, targetRoot, epoch)
  }

  lemma TargetIsHigher(t: Tree, r: Root)
    requires WellFormed(t) && TargetsOk(t) && r in t
    requires t[r].target.Some? && t[r].target.value in t
    ensures t[t[r].target.value].slot <= EpochStart(Epoch(t[r].slot))
    ensures t[r].target.value != r ==> t[t[r].target.value].slot < t[r].slot
  {
    assert TargetOk(t, r);
    AncestorAtIsAncestor(t, r, EpochStart(Epoch(t[r].slot)));
    AncestorSlots(t, t[r].target.value, r);
  }

  lemma EpochArithmetic(slot: nat, epoch: nat)
    ensures epoch > Epoch(slot) <==> slot < EpochStart(epoch)
    ensures EpochStart(Epoch(slot)) <= slot
    ensures slot % SLOTS_PER_EPOCH == 0 ==> EpochStart(Epoch(slot)) == slot
  {}

  /**
    The jump-based search refines the specification's block-by-block search: when the
    checkpoint block is in the store it is returned, and when it is not, no block of the
    store is.
   */
  lemma {:induction false} TargetRefinesCheckpoint(t: Tree, root: Root, epoch: nat)
    requires WellFormed(t) && TargetsOk(t) && root in t
    ensures var c := CheckpointRoot(t, root, epoch);
            if c.Some? then TargetRootForEpoch(t, root, epoch) == Found(c.value)
            else var f := TargetRootForEpoch(t, root, epoch); f.Found? ==> f.root !in t
    decreases t[root].slot
  {
    var nodeEpoch := Epoch(t[root].slot);
    EpochArithmetic(t[root].slot, epoch);
    assert TargetOk(t, root);
    if epoch < nodeEpoch {
      AncestorAtSkips(t, root, EpochStart(nodeEpoch), EpochStart(epoch));
      if t[root].target.Some? && t[root].target.value in t {
        var a := t[root].target.value;
        TargetIsHigher(t, root);
        assert Linked(t, a);
        EpochArithmetic(t[a].slot, epoch);
        EpochArithmetic(t[a].slot, nodeEpoch);
        if nodeEpoch == Epoch(t[a].slot) {
          if t[a].parent.Some? {
            TargetRefinesCheckpoint(t, t[a].parent.value, epoch);
          }
        } else {
          TargetRefinesCheckpoint(t, a, epoch);
        }
      }
    }
  }
}
