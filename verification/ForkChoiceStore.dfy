/**
  The fork choice store as the mutable object of the original: votes, insertion and head
  selection update its fields; each method is tied to the functions of ForkChoice.
 */
module ForkChoiceStore {
  import opened Options
  import opened ForkTree
  import opened ForkPruning
  import opened ForkChoice
  import opened ForkChoiceHead
  import opened ForkChoiceChain

  function Elements(indices: seq<nat>): set<nat> {
    set i | i in indices
  }

  lemma OneMoreVoter(known: set<nat>, indices: seq<nat>, k: nat)
    requires k < |indices|
    ensures var before, after, x := Elements(indices[..k]), Elements(indices[..k + 1]), indices[k];
            && after == before + {x}
            && |after - known| == |before - known| + if x in known + before then 0 else 1
  {
    var before, x := Elements(indices[..k]), indices[k];
    assert indices[..k + 1] == indices[..k] + [x];
    assert Elements(indices[..k + 1]) == before + {x};
    OneMore(known, before, x);
  }

  lemma OneMore(known: set<nat>, before: set<nat>, x: nat)
    ensures |before + {x} - known| == |before - known| + if x in known + before then 0 else 1
  {
    if x in known + before {
      assert before + {x} - known == before - known;
    } else {
      assert before + {x} - known == before - known + {x};
    }
  }

  class ForkChoiceStore {
    var tree: Tree
    var treeRoot: Option<Root>
    var head: Option<Root>
    var votes: Votes
    var justified: Checkpoint
    var finalized: Checkpoint

    function View(): Store
      reads this
    {
      Store(tree, treeRoot, votes, justified, finalized)
    }

    constructor ()
      ensures View() == EMPTY_STORE && Structure(View()) && head == None
    {
      tree, treeRoot, head := map[], None, None;
      votes := Votes(0, None);
      justified, finalized := Checkpoint(0, 0), Checkpoint(0, 0);
    }

    /** `ProcessAttestation`: the indices may repeat, each counts once per block. */
    method ProcessAttestation(indices: seq<nat>, blockRoot: Root, slot: nat)
      requires Structure(View())
      modifies this`tree, this`votes
      ensures View() == Attest(old(View()), Elements(indices), blockRoot, slot)
      ensures Structure(View())
    {
      AttestKeepsStructure(View(), Elements(indices), blockRoot, slot);
      if blockRoot !in tree {
        return;
      }
      var node := tree[blockRoot];
      var voters, newIndex := RecordVoters(node.voters, indices);
      tree := tree[blockRoot := node.(voters := voters)];
      votes := UpdateVoted(votes, slot, blockRoot, newIndex);
    }

    /** The loop over the attesting indices: record them and count the new ones. */
    static method RecordVoters(known: set<nat>, indices: seq<nat>) returns (voters: set<nat>, newIndex: nat)
      ensures voters == known + Elements(indices)
      ensures newIndex == |Elements(indices) - known|
    {
      voters, newIndex := known, 0;
      for k := 0 to |indices|
        invariant voters == known + Elements(indices[..k])
        invariant newIndex == |Elements(indices[..k]) - known|
      {
        OneMoreVoter(known, indices, k);
        if indices[k] !in voters {
          voters := voters + {indices[k]};
          newIndex := newIndex + 1;
        }
      }
      assert indices[..|indices|] == indices;
    }

    /** The tips that are viable and stable, in the arbitrary order of map iteration. */
    method Filters() returns (filters: seq<Root>)
      ensures Elements(filters) == Candidates(View())
    {
      filters := [];
      var todo := tree.Keys;
      while todo != {}
        invariant todo <= tree.Keys
        invariant forall r :: r in filters <==> r in Candidates(View()) - todo
        decreases todo
      {
        var r :| r in todo;
        if Eligible(View(), r) {
          filters := filters + [r];
        }
        todo := todo - {r};
      }
    }

    /** `updateBestDescendant`; an empty store has no tree root and must not reach this. */
    method UpdateBestDescendant()
      requires Structure(View()) && treeRoot.Some?
      modifies this`head
      ensures HeadOk(View(), head)
    {
      if tree[treeRoot.value].children == [] {
        head := None;
        return;
      }
      var filters := Filters();
      if |filters| == 0 {
        head := None;
        return;
      }
      assert filters[0] in Candidates(View());
      var best := Deepest(filters);
      head := Some(best);
    }

    method Deepest(filters: seq<Root>) returns (maxNode: Root)
      requires Structure(View()) && filters != [] && Elements(filters) <= tree.Keys
      ensures IsBest(View(), maxNode, Elements(filters))
    {
      maxNode := filters[0];
      for k := 0 to |filters|
        invariant maxNode in filters
        invariant forall j :: 0 <= j < k ==> AtMost(tree, filters[j], maxNode)
      {
        var node := filters[k];
        assert node in Elements(filters) && maxNode in Elements(filters);
        var d := ComputeDepth(tree, node);
        var m := ComputeDepth(tree, maxNode);
        if d > m {
          maxNode := node;
        } else if d == m {
          if tree[node].slot > tree[maxNode].slot {
            maxNode := node;
          }
        }
      }
    }

    /** `insert`; `ok` is false when the parent is unknown. */
    method Insert(b: Block, beforeGenesis: bool) returns (ok: bool)
      requires Structure(View()) && ConsistentBlock(View(), b)
      modifies this`tree, this`treeRoot, this`head
      ensures View() == Inserted(old(View()), b, beforeGenesis)
      ensures Structure(View())
      ensures ok <==> !InvalidParent(old(View()), b)
      ensures b.root in tree
      ensures old(b.root !in tree && b.parent in tree && treeRoot.Some?) && !beforeGenesis ==>
        HeadOk(View(), head)
      ensures old(b.root in tree) || !ok ==> head == old(head)
      ensures old(b.root !in tree && treeRoot.None?) ==> head == Some(b.root)
    {
      InsertKeepsStructure(View(), b, beforeGenesis);
      if b.root in tree {
        return true;
      }
      if b.parent in tree {
        tree := Attached(View(), b, beforeGenesis);
        if !beforeGenesis {
          UpdateBestDescendant();
        }
        return true;
      }
      var first := treeRoot.None?;
      tree := tree[b.root := NewNode(tree, b, first)];
      if first {
        treeRoot, head := Some(b.root), Some(b.root);
      }
      return first;
    }

    /** `updateCheckpoints`; `ok` is false when the finalized root is unknown. */
    method SetCheckpoints(jc: Checkpoint, fc: Checkpoint) returns (ok: bool)
      requires Structure(View())
      modifies this`tree, this`treeRoot, this`justified, this`finalized
      ensures View() == UpdateCheckpoints(old(View()), jc, fc)
      ensures Structure(View()) <==> !old(PrunesDetached(View(), fc))
      ensures ok <==> fc.epoch <= old(finalized.epoch) || fc.root in old(tree)
      ensures justified == if jc.epoch > old(justified.epoch) then jc else old(justified)
      ensures finalized == if fc.epoch > old(finalized.epoch) then fc else old(finalized)
      ensures if old(fc.epoch > finalized.epoch && fc.root in tree && tree[fc.root].parent.Some?)
              then treeRoot == Some(fc.root) else treeRoot == old(treeRoot) && tree == old(tree)
    {
      CheckpointsKeepStructureIff(View(), jc, fc);
      if jc.epoch > justified.epoch {
        justified := jc;
      }
      if fc.epoch <= finalized.epoch {
        return true;
      }
      finalized := fc;
      if fc.root !in tree {
        return false;
      }
      if tree[fc.root].parent.Some? {
        tree := Pruned(tree, treeRoot.value, fc.root, EpochStart(fc.epoch));
        treeRoot := Some(fc.root);
      }
      return true;
    }

    /** `InsertChain`: all blocks but the first (newest) of a newest-first chain, oldest first. */
    method InsertChain(chain: seq<Block>, beforeGenesis: bool) returns (ok: bool)
      requires Structure(View())
      requires chain != [] ==> ChainFits(View(), chain, |chain| - 1, beforeGenesis)
      modifies this`tree, this`treeRoot, this`head, this`justified, this`finalized
      ensures Structure(View())
      ensures chain == [] ==> ok && View() == old(View())
      ensures chain != [] ==>
        ChainResult(View(), ok) == ChainRun(old(View()), chain, |chain| - 1, beforeGenesis)
    {
      if |chain| == 0 {
        return true;
      }
      ghost var s := View();
      ghost var all := ChainRun(s, chain, |chain| - 1, beforeGenesis);
      var i := |chain| - 1;
      while i > 0
        invariant 0 <= i < |chain|
        invariant View() == s && Structure(s) && ChainFits(s, chain, i, beforeGenesis)
        invariant ChainRun(s, chain, i, beforeGenesis) == all
      {
        ChainRunStep(s, chain, i, beforeGenesis);
        ghost var r := Round(s, chain[i], beforeGenesis);
        ok := InsertOne(chain[i], beforeGenesis);
        if !ok {
          return false;
        }
        s, i := r.s, i - 1;
      }
      return true;
    }

    /** One round of the loop: insert, then update the checkpoints. */
    method InsertOne(b: Block, beforeGenesis: bool) returns (ok: bool)
      requires Structure(View()) && Fits(View(), b, beforeGenesis)
      modifies this`tree, this`treeRoot, this`head, this`justified, this`finalized
      ensures Structure(View())
      ensures ChainResult(View(), ok) == Round(old(View()), b, beforeGenesis)
    {
      RoundKeepsStructure(View(), b, beforeGenesis);
      ok := Insert(b, beforeGenesis);
      if !ok {
        return false;
      }
      ok := SetCheckpoints(b.justified, b.finalized);
    }
  }

  /** A block on an unknown parent is refused and yet stays registered, without a parent. */
  lemma RefusedBlockStaysRegistered(cp: Checkpoint) returns (s: Store)
    ensures var s0 := Inserted(EMPTY_STORE, Block(1, 0, 0, cp, cp), false);
            var orphan := Block(7, 5, 6, cp, cp);
            && Structure(s0) && ConsistentBlock(s0, orphan) && InvalidParent(s0, orphan)
            && s == Inserted(s0, orphan, false)
            && 7 in s.tree && s.tree[7].parent.None? && !s.tree[7].stable && s.treeRoot == Some(1)
  {
    var b := Block(1, 0, 0, cp, cp);
    InsertKeepsStructure(EMPTY_STORE, b, false);
    s := Inserted(Inserted(EMPTY_STORE, b, false), Block(7, 5, 6, cp, cp), false);
  }
}
