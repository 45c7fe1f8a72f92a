/**
  `ProposerAtts.Dedup`: within each attestation-data root keep exactly the attestations
  whose aggregation bits are maximal under inclusion, one per bit set.

  The inner algorithm shrinks a slice in place with swap-removal and steps both loop
  indices back, so it works on an array here.
 */
module AttestationDedup {
  import opened Options

  type Root = nat

  /** A bitlist: its length and the positions that are set. */
  datatype Bits = Bits(length: nat, ones: set<nat>)

  /** `dataRoot` is `None` when hashing the attestation data fails. */
  datatype Attestation = Attestation(dataRoot: Option<Root>, bits: Bits, signature: nat)

  datatype Error = BitlistLengthMismatch

  /** Inclusion of bit sets; `Bitlist.Contains` is defined on equal lengths only. */
  predicate Contains(a: Bits, b: Bits) {
    a.length == b.length && b.ones <= a.ones
  }

  predicate Incomparable(a: Bits, b: Bits) {
    a.length == b.length && !Contains(a, b) && !Contains(b, a)
  }

  lemma ContainsIsTransitive(a: Bits, b: Bits, c: Bits)
    requires Contains(a, b) && Contains(b, c)
    ensures Contains(a, c)
  {}

  predicate SameLengths(atts: seq<Attestation>) {
    forall i, j :: 0 <= i < |atts| && 0 <= j < |atts| ==> atts[i].bits.length == atts[j].bits.length
  }

  predicate Antichain(atts: seq<Attestation>) {
    forall i, j :: 0 <= i < j < |atts| ==> Incomparable(atts[i].bits, atts[j].bits)
  }

  predicate CoveredBy(x: Attestation, atts: seq<Attestation>) {
    exists i :: 0 <= i < |atts| && Contains(atts[i].bits, x.bits)
  }

  predicate Covers(kept: seq<Attestation>, atts: seq<Attestation>) {
    forall i {:trigger CoveredBy(atts[i], kept)} :: 0 <= i < |atts| ==> CoveredBy(atts[i], kept)
  }

  predicate DrawnFrom(kept: seq<Attestation>, atts: seq<Attestation>) {
    forall i :: 0 <= i < |kept| ==> kept[i] in atts
  }

  /** What the in-place loops maintain and finally establish. */
  predicate Reduces(kept: seq<Attestation>, atts: seq<Attestation>) {
    Covers(kept, atts) && DrawnFrom(kept, atts)
  }

  /** Swap-removal: position `i` takes the last element and the list shrinks by one. */
  function SwapRemove(s: seq<Attestation>, i: nat): (r: seq<Attestation>)
    requires i < |s|
    ensures |r| == |s| - 1
  {
    s[i := s[|s| - 1]][..|s| - 1]
  }

  /** Swap-removal keeps every element except the removed one. */
  lemma SwapRemoveKeeps(s: seq<Attestation>, i: nat, p: nat) returns (p': nat)
    requires i < |s| && p < |s| && p != i
    ensures p' < |SwapRemove(s, i)| && SwapRemove(s, i)[p'] == s[p]
  {
    p' := if p == |s| - 1 then i else p;
  }

  lemma SwapRemoveCovers(kept: seq<Attestation>, x: Attestation, i: nat, j: nat)
    requires CoveredBy(x, kept)
    requires i < |kept| && j < |kept| && i != j && Contains(kept[j].bits, kept[i].bits)
    ensures CoveredBy(x, SwapRemove(kept, i))
  {
    var p: nat :| p < |kept| && Contains(kept[p].bits, x.bits);
    var p' := SwapRemoveKeeps(kept, i, if p == i then j else p);
    assert Contains(SwapRemove(kept, i)[p'].bits, x.bits);
  }

  lemma SwapRemoveDrawn(kept: seq<Attestation>, atts: seq<Attestation>, i: nat)
    requires DrawnFrom(kept, atts) && i < |kept|
    ensures DrawnFrom(SwapRemove(kept, i), atts)
  {
    assert kept[|kept| - 1] in atts;
  }

  /** Removing an element that another remaining element contains keeps the reduction. */
  lemma SwapRemoveReduces(kept: seq<Attestation>, atts: seq<Attestation>, i: nat, j: nat)
    requires Reduces(kept, atts)
    requires i < |kept| && j < |kept| && i != j && Contains(kept[j].bits, kept[i].bits)
    ensures Reduces(SwapRemove(kept, i), atts)
  {
    forall k | 0 <= k < |atts| ensures CoveredBy(atts[k], SwapRemove(kept, i)) {
      SwapRemoveCovers(kept, atts[k], i, j);
    }
    SwapRemoveDrawn(kept, atts, i);
  }

  /** Pairs already compared: every `p < i` is incomparable with everything after it. */
  predicate Separated(s: seq<Attestation>, i: nat) {
    forall p, q :: 0 <= p < i && p < q < |s| ==> Incomparable(s[p].bits, s[q].bits)
  }

  /** Inner-loop progress: `s[i]` is incomparable with `s[i+1..j]`. */
  predicate SeparatedRow(s: seq<Attestation>, i: nat, j: nat)
    requires i < |s| && j <= |s|
  {
    forall q :: i < q < j ==> Incomparable(s[i].bits, s[q].bits)
  }

  lemma SwapRemoveSeparated(s: seq<Attestation>, i: nat, k: nat)
    requires Separated(s, i) && i <= k < |s|
    ensures Separated(SwapRemove(s, k), i)
  {
    var r := SwapRemove(s, k);
    forall p, q | 0 <= p < i && p < q < |r| ensures Incomparable(r[p].bits, r[q].bits) {
      assert r[p] == s[p];
      assert r[q] == s[if q == k then |s| - 1 else q];
    }
  }

  lemma SwapRemoveSeparatedRow(s: seq<Attestation>, i: nat, j: nat)
    requires i < j < |s| && SeparatedRow(s, i, j)
    ensures SeparatedRow(SwapRemove(s, j), i, j)
  {
    var r := SwapRemove(s, j);
    assert r[i] == s[i];
    forall q | i < q < j ensures Incomparable(r[i].bits, r[q].bits) {
      assert r[q] == s[q];
    }
  }

  lemma AntichainPair(kept: seq<Attestation>, p: nat, q: nat)
    requires Antichain(kept) && p < |kept| && q < |kept| && p != q
    ensures Incomparable(kept[p].bits, kept[q].bits)
  {
    if p < q {
      assert Incomparable(kept[p].bits, kept[q].bits);
    } else {
      assert Incomparable(kept[q].bits, kept[p].bits);
    }
  }

  /** Once the loops end without an error, one length is left: the input had only one. */
  lemma ReducedLengths(kept: seq<Attestation>, atts: seq<Attestation>)
    requires Covers(kept, atts) && Antichain(kept)
    ensures SameLengths(atts)
  {
    forall i, j | 0 <= i < |atts| && 0 <= j < |atts| ensures atts[i].bits.length == atts[j].bits.length {
      assert CoveredBy(atts[i], kept) && CoveredBy(atts[j], kept);
      CoveredLengths(kept, atts[i], atts[j]);
    }
  }

  lemma CoveredLengths(kept: seq<Attestation>, x: Attestation, y: Attestation)
    requires CoveredBy(x, kept) && CoveredBy(y, kept) && Antichain(kept)
    ensures x.bits.length == y.bits.length
  {
    var p: nat :| p < |kept| && Contains(kept[p].bits, x.bits);
    var q: nat :| q < |kept| && Contains(kept[q].bits, y.bits);
    if p != q {
      AntichainPair(kept, p, q);
    }
  }

  /** The bit set `x` occurs in the list and nothing in the list properly contains it. */
  ghost predicate IsMaximal(x: Bits, atts: seq<Attestation>) {
    Occurs(x, atts) && forall i :: 0 <= i < |atts| && Contains(atts[i].bits, x) ==> atts[i].bits == x
  }

  ghost predicate Occurs(x: Bits, atts: seq<Attestation>) {
    exists i :: 0 <= i < |atts| && atts[i].bits == x
  }

  lemma KeptIsMaximal(kept: seq<Attestation>, k: nat, y: Attestation)
    requires Antichain(kept) && k < |kept| && CoveredBy(y, kept) && Contains(y.bits, kept[k].bits)
    ensures y.bits == kept[k].bits
  {
    var p: nat :| p < |kept| && Contains(kept[p].bits, y.bits);
    ContainsIsTransitive(kept[p].bits, y.bits, kept[k].bits);
    if p != k {
      AntichainPair(kept, p, k);
    }
  }

  lemma MaximalIsKept(kept: seq<Attestation>, atts: seq<Attestation>, x: Bits)
    requires Reduces(kept, atts) && IsMaximal(x, atts)
    ensures Occurs(x, kept)
  {
    var i :| 0 <= i < |atts| && atts[i].bits == x;
    assert CoveredBy(atts[i], kept);
    var p: nat :| p < |kept| && Contains(kept[p].bits, atts[i].bits);
    assert kept[p] in atts;
  }

  /** An antichain drawn from the input that covers it is exactly the set of maximal bit sets. */
  lemma AntichainCoverIsMaximal(kept: seq<Attestation>, atts: seq<Attestation>, x: Bits)
    requires Reduces(kept, atts) && Antichain(kept)
    ensures Occurs(x, kept) <==> IsMaximal(x, atts)
  {
    if Occurs(x, kept) {
      var k: nat :| k < |kept| && kept[k].bits == x;
      assert kept[k] in atts;
      forall i | 0 <= i < |atts| && Contains(atts[i].bits, x) ensures atts[i].bits == x {
        assert CoveredBy(atts[i], kept);
        KeptIsMaximal(kept, k, atts[i]);
      }
    }
    if IsMaximal(x, atts) {
      MaximalIsKept(kept, atts, x);
    }
  }

  /** The inner loop's state: `s` still reduces `all`, and the pairs before (i, j) are done. */
  predicate RowState(s: seq<Attestation>, i: nat, j: nat, all: seq<Attestation>) {
    && i < j <= |s|
    && Reduces(s, all)
    && Separated(s, i)
    && SeparatedRow(s, i, j)
  }

  lemma RowDropsLater(s: seq<Attestation>, i: nat, j: nat, all: seq<Attestation>)
    requires RowState(s, i, j, all) && j < |s| && Contains(s[i].bits, s[j].bits)
    ensures RowState(SwapRemove(s, j), i, j, all)
  {
    SwapRemoveReduces(s, all, j, i);
    SwapRemoveSeparated(s, i, j);
    SwapRemoveSeparatedRow(s, i, j);
  }

  lemma RowDropsEarlier(s: seq<Attestation>, i: nat, j: nat, all: seq<Attestation>)
    requires RowState(s, i, j, all) && j < |s| && Contains(s[j].bits, s[i].bits)
    ensures Reduces(SwapRemove(s, i), all) && Separated(SwapRemove(s, i), i)
  {
    SwapRemoveReduces(s, all, i, j);
    SwapRemoveSeparated(s, i, i);
  }

  lemma RowAdvances(s: seq<Attestation>, i: nat, j: nat, all: seq<Attestation>)
    requires RowState(s, i, j, all) && j < |s| && Incomparable(s[i].bits, s[j].bits)
    ensures RowState(s, i, j + 1, all)
  {}

  lemma RowEnds(s: seq<Attestation>, i: nat, all: seq<Attestation>)
    requires RowState(s, i, |s|, all)
    ensures Separated(s, i + 1)
  {}

  /** An error is only raised by two drawn elements of different lengths. */
  lemma MixedLengths(kept: seq<Attestation>, atts: seq<Attestation>)
    requires DrawnFrom(kept, atts) && !SameLengths(kept)
    ensures !SameLengths(atts)
  {
    var i, j :| 0 <= i < |kept| && 0 <= j < |kept| && kept[i].bits.length != kept[j].bits.length;
    assert kept[i] in atts && kept[j] in atts;
  }

  /** Swap-removal on the backing array: the last element takes the place of the removed one. */
  method RemoveAt(atts: array<Attestation>, n: nat, k: nat)
    requires k < n <= atts.Length
    modifies atts
    ensures atts[..n - 1] == SwapRemove(old(atts[..n]), k)
  {
    atts[k] := atts[n - 1];
  }

  /**
    The `j` loop for one `i`. `removed` says that `atts[i]` itself was dropped, in which
    case the outer index is stepped back and the element moved to `i` is examined next.
   */
  method CompareRow(atts: array<Attestation>, n0: nat, i: nat, ghost all: seq<Attestation>)
    returns (n: nat, removed: bool, ok: bool)
    requires i < n0 <= atts.Length
    requires Reduces(atts[..n0], all) && Separated(atts[..n0], i)
    modifies atts
    ensures i <= n <= n0
    ensures ok ==> Reduces(atts[..n], all)
    ensures if !ok then !SameLengths(all)
            else if removed then n < n0 && Separated(atts[..n], i)
            else i < n && Separated(atts[..n], i + 1)
  {
    n, removed, ok := n0, false, true;
    var j := i + 1;
    while j < n
      invariant i < j <= n <= n0
      invariant RowState(atts[..n], i, j, all)
      decreases n - j
    {
      ghost var s := atts[..n];
      var a, b := atts[i].bits, atts[j].bits;
      assert s[i].bits == a && s[j].bits == b;
      if a.length != b.length {
        MixedLengths(s, all);
        return n, false, false;
      }
      if Contains(a, b) {
        RowDropsLater(s, i, j, all);
        RemoveAt(atts, n, j);
        n := n - 1;
      } else if Contains(b, a) {
        RowDropsEarlier(s, i, j, all);
        RemoveAt(atts, n, i);
        return n - 1, true, true;
      } else {
        RowAdvances(s, i, j, all);
        j := j + 1;
      }
    }
    RowEnds(atts[..n], i, all);
  }

  lemma ReducesItself(all: seq<Attestation>)
    ensures Reduces(all, all)
  {
    forall k | 0 <= k < |all| ensures CoveredBy(all[k], all) {
      assert Contains(all[k].bits, all[k].bits);
    }
  }

  /**
    One data-root group, reduced in place. `n` is the length of the shrunken slice.
    An error is reported exactly when the group mixes bitlist lengths.
   */
  method DedupGroup(atts: array<Attestation>) returns (n: nat, ok: bool)
    modifies atts
    ensures n <= atts.Length
    ensures ok <==> SameLengths(old(atts[..]))
    ensures ok ==> Antichain(atts[..n]) && Reduces(atts[..n], old(atts[..]))
  {
    ghost var all := atts[..];
    n := atts.Length;
    var i := 0;
    assert atts[..n] == all;
    ReducesItself(all);
    while i < n
      invariant 0 <= i <= n <= atts.Length
      invariant Reduces(atts[..n], all) && Separated(atts[..n], i)
      decreases n, n - i
    {
      var removed;
      n, removed, ok := CompareRow(atts, n, i, all);
      if !ok {
        return;
      }
      if !removed {
        i := i + 1;
      }
    }
    ok := true;
    ReducedLengths(atts[..n], all);
  }

  /** The attestations of `a` with data root `r`, in order. */
  function Group(a: seq<Attestation>, r: Root): seq<Attestation> {
    if a == [] then []
    else
      var rest := Group(a[..|a| - 1], r);
      var last := a[|a| - 1];
      if last.dataRoot == Some(r) then rest + [last] else rest
  }

  lemma {:induction false} GroupMembers(a: seq<Attestation>, r: Root)
    ensures forall x :: x in Group(a, r) <==> x in a && x.dataRoot == Some(r)
  {
    if a != [] {
      GroupMembers(a[..|a| - 1], r);
      assert a == a[..|a| - 1] + [a[|a| - 1]];
    }
  }

  /** The bit sets kept for root `r`. */
  ghost predicate KeptFor(kept: seq<Attestation>, r: Root, x: Bits) {
    exists k :: 0 <= k < |kept| && kept[k].dataRoot == Some(r) && kept[k].bits == x
  }

  ghost predicate NoneFor(kept: seq<Attestation>, r: Root) {
    forall k :: 0 <= k < |kept| ==> kept[k].dataRoot != Some(r)
  }

  ghost predicate AllFor(kept: seq<Attestation>, r: Root) {
    forall k :: 0 <= k < |kept| ==> kept[k].dataRoot == Some(r)
  }

  ghost predicate DistinctFor(kept: seq<Attestation>, r: Root) {
    forall i, j :: 0 <= i < j < |kept| && kept[i].dataRoot == Some(r) && kept[j].dataRoot == Some(r)
      ==> kept[i].bits != kept[j].bits
  }

  /** `kept` holds, once each, exactly the maximal bit sets of root `r` in `a`. */
  ghost predicate KeepsMaximal(kept: seq<Attestation>, a: seq<Attestation>, r: Root) {
    && DistinctFor(kept, r)
    && forall x :: KeptFor(kept, r, x) <==> IsMaximal(x, Group(a, r))
  }

  lemma KeptForAppend(uniq: seq<Attestation>, kept: seq<Attestation>, r: Root, x: Bits)
    ensures KeptFor(uniq + kept, r, x) <==> KeptFor(uniq, r, x) || KeptFor(kept, r, x)
  {
    var all := uniq + kept;
    if KeptFor(uniq, r, x) {
      var k :| 0 <= k < |uniq| && uniq[k].dataRoot == Some(r) && uniq[k].bits == x;
      assert all[k] == uniq[k];
    }
    if KeptFor(kept, r, x) {
      var k :| 0 <= k < |kept| && kept[k].dataRoot == Some(r) && kept[k].bits == x;
      assert all[|uniq| + k] == kept[k];
    }
  }

  /** Appending the reduced group of `r` settles `r`. */
  lemma AppendOwnGroup(uniq: seq<Attestation>, kept: seq<Attestation>, a: seq<Attestation>, r: Root)
    requires NoneFor(uniq, r) && AllFor(kept, r)
    requires Antichain(kept) && Reduces(kept, Group(a, r))
    ensures KeepsMaximal(uniq + kept, a, r)
  {
    forall x ensures KeptFor(uniq + kept, r, x) <==> IsMaximal(x, Group(a, r)) {
      KeptForAppend(uniq, kept, r, x);
      AntichainCoverIsMaximal(kept, Group(a, r), x);
      assert KeptFor(kept, r, x) <==> Occurs(x, kept);
    }
    var all := uniq + kept;
    forall i, j | 0 <= i < j < |all| && all[i].dataRoot == Some(r) && all[j].dataRoot == Some(r)
      ensures all[i].bits != all[j].bits
    {
      assert i >= |uniq|;
      AntichainPair(kept, i - |uniq|, j - |uniq|);
    }
  }

  /** Appending another root's group leaves what is kept for `r` alone. */
  lemma AppendOtherGroup(uniq: seq<Attestation>, kept: seq<Attestation>, a: seq<Attestation>, r: Root)
    requires NoneFor(kept, r)
    ensures KeepsMaximal(uniq, a, r) ==> KeepsMaximal(uniq + kept, a, r)
    ensures NoneFor(uniq, r) ==> NoneFor(uniq + kept, r)
  {
    var all := uniq + kept;
    forall k | |uniq| <= k < |all| ensures all[k].dataRoot != Some(r) {
      assert all[k] == kept[k - |uniq|];
    }
    forall x ensures KeptFor(all, r, x) <==> KeptFor(uniq, r, x) {
      KeptForAppend(uniq, kept, r, x);
    }
  }

  /** A root that never occurs has nothing to keep. */
  lemma EmptyGroup(kept: seq<Attestation>, a: seq<Attestation>, r: Root)
    requires Group(a, r) == [] && NoneFor(kept, r)
    ensures KeepsMaximal(kept, a, r) && SameLengths(Group(a, r))
  {}

  lemma DrawnFromGroup(kept: seq<Attestation>, a: seq<Attestation>, r: Root)
    requires DrawnFrom(kept, Group(a, r))
    ensures AllFor(kept, r) && DrawnFrom(kept, a)
  {
    GroupMembers(a, r);
  }

  /** Group by data root every attestation whose data hashes. */
  method GroupByRoot(a: seq<Attestation>) returns (groups: map<Root, seq<Attestation>>)
    ensures forall r :: Group(a, r) == if r in groups then groups[r] else []
  {
    groups := map[];
    for k := 0 to |a|
      invariant forall r :: Group(a[..k], r) == if r in groups then groups[r] else []
    {
      var att := a[k];
      assert a[..k + 1][..k] == a[..k];
      if att.dataRoot.Some? {
        var r := att.dataRoot.value;
        groups := groups[r := (if r in groups then groups[r] else []) + [att]];
      }
    }
    assert a[..|a|] == a;
  }

  /** The whole operation, for any order in which the map of groups is visited. */
  method Dedup(a: seq<Attestation>) returns (r: Result<seq<Attestation>, Error>)
    ensures |a| < 2 ==> r == Ok(a)
    ensures |a| >= 2 ==> (r.Ok? <==> forall root :: SameLengths(Group(a, root)))
    ensures |a| >= 2 && r.Ok? ==>
      DrawnFrom(r.value, a) && forall root :: KeepsMaximal(r.value, a, root)
  {
    if |a| < 2 {
      return Ok(a);
    }
    var groups := GroupByRoot(a);
    var uniq: seq<Attestation> := [];
    var todo := groups.Keys;
    while todo != {}
      invariant todo <= groups.Keys
      invariant DrawnFrom(uniq, a)
      invariant forall root :: root in groups.Keys - todo ==>
        SameLengths(Group(a, root)) && KeepsMaximal(uniq, a, root)
      invariant forall root :: root !in groups.Keys - todo ==> NoneFor(uniq, root)
      decreases todo
    {
      var root :| root in todo;
      var kept, ok := ReducedGroup(groups[root]);
      if !ok {
        assert !SameLengths(Group(a, root));
        return Err(BitlistLengthMismatch);
      }
      DrawnFromGroup(kept, a, root);
      AppendOwnGroup(uniq, kept, a, root);
      forall other | other != root
        ensures KeepsMaximal(uniq, a, other) ==> KeepsMaximal(uniq + kept, a, other)
        ensures NoneFor(uniq, other) ==> NoneFor(uniq + kept, other)
      {
        AppendOtherGroup(uniq, kept, a, other);
      }
      uniq := uniq + kept;
      todo := todo - {root};
    }
    forall root ensures SameLengths(Group(a, root)) && KeepsMaximal(uniq, a, root) {
      if root !in groups {
        EmptyGroup(uniq, a, root);
      }
    }
    return Ok(uniq);
  }

  /** The reduced group: what the in-place loops leave at the front. */
  method ReducedGroup(group: seq<Attestation>) returns (kept: seq<Attestation>, ok: bool)
    ensures ok <==> SameLengths(group)
    ensures ok ==> Antichain(kept) && Reduces(kept, group)
  {
    var atts := new Attestation[|group|](i requires 0 <= i < |group| => group[i]);
    assert atts[..] == group;
    var n;
    n, ok := DedupGroup(atts);
    kept := atts[..n];
  }
}
