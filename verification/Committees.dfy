/**
  Committee look-up in the committee cache (`committee.go`): one shuffled list of validators is
  cut into `committeeCount` slices and a (slot, index) pair selects one of them.
 */
module Committees {
  import opened Options

  const TWO_TO_THE_64: nat := 0x1_0000_0000_0000_0000
  const SLOTS_PER_EPOCH: nat := 32

  datatype Error = AdditionOverflow | MultiplicationOverflow | OutOfBound

  /** `slice.SplitOffset`, with the uint64 product written out. */
  function SplitOffset(listSize: nat, chunks: nat, index: nat): nat
    requires chunks > 0
  {
    ((listSize * index) % TWO_TO_THE_64) / chunks
  }

  /** The cache entry; validators are kept abstract. */
  datatype Entry<V> = Entry(shuffled: seq<V>, committeeCount: nat)

  function CommitteesPerSlot(committeeCount: nat): nat {
    if committeeCount / SLOTS_PER_EPOCH > 1 then committeeCount / SLOTS_PER_EPOCH else 1
  }

  /** `CommitteeCache.Committee` after the cache look-up has succeeded. */
  function Committee<V>(entry: Entry<V>, slot: nat, index: nat): Result<seq<V>, Error>
    requires entry.committeeCount > 0
  {
    var offset := (slot % SLOTS_PER_EPOCH) * CommitteesPerSlot(entry.committeeCount);
    if offset >= TWO_TO_THE_64 then Err(MultiplicationOverflow)
    else if index + offset >= TWO_TO_THE_64 then Err(AdditionOverflow)
    else CommitteeAt(entry, index + offset)
  }

  /** `startEndIndices` and the bound check that follows it. */
  function CommitteeAt<V>(entry: Entry<V>, i: nat): Result<seq<V>, Error>
    requires entry.committeeCount > 0
  {
    var start := SplitOffset(|entry.shuffled|, entry.committeeCount, i);
    var end := SplitOffset(|entry.shuffled|, entry.committeeCount, (i + 1) % TWO_TO_THE_64);
    if end > |entry.shuffled| || end < start then Err(OutOfBound)
    else Ok(entry.shuffled[start..end])
  }

  /** The i-th cut of a list of the given size into `count` parts, as the specification defines it. */
  function Cut(listSize: nat, count: nat, i: nat): (c: nat)
    requires i <= count && count > 0
    ensures c <= listSize
  {
    MulMonotone(listSize, i, count);
    QuotientAtMost(listSize * i, listSize, count);
    listSize * i / count
  }

  /** Slice number `i` of the list cut into `count` parts. */
  function Slice<V>(list: seq<V>, count: nat, i: nat): seq<V>
    requires i < count
  {
    CutsGrow(|list|, count, i);
    list[Cut(|list|, count, i)..Cut(|list|, count, i + 1)]
  }

  /** Slices `0..n` of the list, one after the other. */
  function Slices<V>(list: seq<V>, count: nat, n: nat): seq<V>
    requires n <= count
  {
    if n == 0 then [] else Slices(list, count, n - 1) + Slice(list, count, n - 1)
  }

  /** Consecutive cuts are apart by the floor or the ceiling of listSize/count. */
  lemma CutsGrow(listSize: nat, count: nat, i: nat)
    requires i < count
    ensures listSize / count
         <= Cut(listSize, count, i + 1) - Cut(listSize, count, i)
         <= listSize / count + 1
    ensures Cut(listSize, count, i) <= Cut(listSize, count, i + 1)
  {
    var a, b := listSize * i, listSize * (i + 1);
    assert b == a + listSize;
    QuotientOfSum(a, listSize, count);
  }

  lemma MulMonotone(n: nat, i: nat, j: nat)
    requires i <= j
    ensures n * i <= n * j
  {}

  lemma QuotientAtMost(b: nat, n: nat, count: nat)
    requires count > 0 && b <= n * count
    ensures b / count <= n
  {
    var q := b / count;
    assert b == count * q + b % count;
    if q >= n + 1 {
      MulMonotone(count, n + 1, q);
    }
  }

  lemma QuotientOfSum(a: nat, n: nat, count: nat)
    requires count > 0
    ensures a / count + n / count <= (a + n) / count <= a / count + n / count + 1
  {
    SumOfDivisions(a, n, count, a / count, a % count, n / count, n % count);
  }

  lemma SumOfDivisions(a: nat, n: nat, count: nat, p: nat, s: nat, q: nat, t: nat)
    requires a == count * p + s && s < count
    requires n == count * q + t && t < count
    ensures p + q <= (a + n) / count <= p + q + 1
  {
    assert count * (p + q) == count * p + count * q;
    if s + t < count {
      QuotientUnique(a + n, count, p + q, s + t);
    } else {
      assert count * (p + q + 1) == count * (p + q) + count;
      QuotientUnique(a + n, count, p + q + 1, s + t - count);
    }
  }

  lemma QuotientUnique(b: nat, count: nat, q: nat, r: nat)
    requires count > 0 && r < count && b == count * q + r
    ensures b / count == q
  {
    var q' := b / count;
    assert b == count * q' + b % count;
    if q' < q {
      MulMonotone(count, q' + 1, q);
    } else if q < q' {
      MulMonotone(count, q + 1, q');
    }
  }

  /** Slices `0..n` are the prefix of the list that ends at the n-th cut. */
  lemma {:induction false} SlicesArePrefix<V>(list: seq<V>, count: nat, n: nat)
    requires n <= count && count > 0
    ensures Slices(list, count, n) == list[..Cut(|list|, count, n)]
  {
    if n == 0 {
      FirstCut(|list|, count);
    } else {
      SlicesArePrefix(list, count, n - 1);
      CutsGrow(|list|, count, n - 1);
      SplitPrefix(list, Cut(|list|, count, n - 1), Cut(|list|, count, n));
    }
  }

  lemma SplitPrefix<V>(list: seq<V>, lo: nat, hi: nat)
    requires lo <= hi <= |list|
    ensures list[..lo] + list[lo..hi] == list[..hi]
  {}

  lemma FirstCut(listSize: nat, count: nat)
    requires count > 0
    ensures Cut(listSize, count, 0) == 0 && Cut(listSize, count, count) == listSize
  {
    QuotientUnique(listSize * 0, count, 0, 0);
    QuotientUnique(listSize * count, count, listSize, 0);
  }

  /** All slices together are the whole list: nothing lost, nothing repeated, order kept. */
  lemma SlicesCoverList<V>(list: seq<V>, count: nat)
    requires count > 0
    ensures Slices(list, count, count) == list
  {
    SlicesArePrefix(list, count, count);
    FirstCut(|list|, count);
  }

  lemma SliceSize<V>(list: seq<V>, count: nat, i: nat)
    requires i < count
    ensures |list| / count <= |Slice(list, count, i)| <= |list| / count + 1
  {
    CutsGrow(|list|, count, i);
  }

  /** Slices are balanced: sizes differ by at most one. */
  lemma SlicesAreBalanced<V>(list: seq<V>, count: nat, i: nat, j: nat)
    requires i < count && j < count
    ensures -1 <= |Slice(list, count, i)| - |Slice(list, count, j)| <= 1
  {
    SliceSize(list, count, i);
    SliceSize(list, count, j);
  }

  /** The slice number that (slot, index) selects when `k` committees sit per slot. */
  function SliceNumber(k: nat, slot: nat, index: nat): nat {
    (slot % SLOTS_PER_EPOCH) * k + index
  }

  /**
    With CommitteeCount = k * SlotsPerEpoch the look-up never fails and returns exactly the slice of its
    number, whenever the products that the look-up forms fit uint64.
   */
  lemma CommitteeIsSlice<V>(entry: Entry<V>, k: nat, slot: nat, index: nat)
    requires k > 0 && index < k && entry.committeeCount == k * SLOTS_PER_EPOCH
    requires |entry.shuffled| * (SliceNumber(k, slot, index) + 1) < TWO_TO_THE_64
    requires entry.committeeCount < TWO_TO_THE_64
    ensures SliceNumber(k, slot, index) < entry.committeeCount
    ensures Committee(entry, slot, index)
         == Ok(Slice(entry.shuffled, entry.committeeCount, SliceNumber(k, slot, index)))
  {
    SliceNumberInRange(k, slot, index);
    CommitteeAtIsSlice(entry, SliceNumber(k, slot, index));
  }

  lemma CommitteeAtIsSlice<V>(entry: Entry<V>, i: nat)
    requires i < entry.committeeCount < TWO_TO_THE_64
    requires |entry.shuffled| * (i + 1) < TWO_TO_THE_64
    ensures CommitteeAt(entry, i) == Ok(Slice(entry.shuffled, entry.committeeCount, i))
  {
    var n, count := |entry.shuffled|, entry.committeeCount;
    var start, end := Cut(n, count, i), Cut(n, count, i + 1);
    MulMonotone(n, i, i + 1);
    WrappedCut(n, count, i);
    WrappedCut(n, count, i + 1);
    CutsGrow(n, count, i);
    BetweenCuts(entry, i, start, end);
  }

  /** The look-up between two offsets that are in order and in bound. */
  lemma BetweenCuts<V>(entry: Entry<V>, i: nat, start: nat, end: nat)
    requires entry.committeeCount > 0 && i + 1 < TWO_TO_THE_64
    requires SplitOffset(|entry.shuffled|, entry.committeeCount, i) == start
    requires SplitOffset(|entry.shuffled|, entry.committeeCount, i + 1) == end
    requires start <= end <= |entry.shuffled|
    ensures CommitteeAt(entry, i) == Ok(entry.shuffled[start..end])
  {
    WithinUint64(i + 1);
  }

  lemma WithinUint64(i: nat)
    requires i < TWO_TO_THE_64
    ensures i % TWO_TO_THE_64 == i
  {}

  lemma SliceNumberInRange(k: nat, slot: nat, index: nat)
    requires k > 0 && index < k
    ensures SliceNumber(k, slot, index) < k * SLOTS_PER_EPOCH
    ensures CommitteesPerSlot(k * SLOTS_PER_EPOCH) == k
  {
    MulMonotone(k, slot % SLOTS_PER_EPOCH, SLOTS_PER_EPOCH - 1);
  }

  /** When its product fits uint64 the code's offset is the specification's cut. */
  lemma WrappedCut(listSize: nat, count: nat, i: nat)
    requires i <= count && count > 0 && listSize * i < TWO_TO_THE_64
    ensures SplitOffset(listSize, count, i) == Cut(listSize, count, i)
  {
    WithinUint64(listSize * i);
  }

  /** And only then: a wrapped product gives a smaller offset. */
  lemma OffsetIsRightIff(listSize: nat, count: nat, i: nat)
    requires i <= count && 0 < count <= TWO_TO_THE_64
    ensures SplitOffset(listSize, count, i) == Cut(listSize, count, i) <==> listSize * i < TWO_TO_THE_64
  {
    if listSize * i < TWO_TO_THE_64 {
      WrappedCut(listSize, count, i);
    } else {
      WrapsBelow(listSize * i);
      QuotientsDiffer((listSize * i) % TWO_TO_THE_64, listSize * i, count);
    }
  }

  /** Numbers a divisor apart have different quotients. */
  lemma QuotientsDiffer(a: nat, b: nat, count: nat)
    requires count > 0 && a + count <= b
    ensures a / count < b / count
  {
    QuotientOfSum(a, b - a, count);
    var q := (b - a) / count;
    assert b - a == count * q + (b - a) % count;
  }

  /** A look-up uses the specification's two offsets exactly when its own products fit uint64. */
  lemma LookupOffsetsAreRightIff(listSize: nat, count: nat, i: nat)
    requires i < count < TWO_TO_THE_64
    ensures SplitOffset(listSize, count, i) == Cut(listSize, count, i)
            && SplitOffset(listSize, count, i + 1) == Cut(listSize, count, i + 1)
       <==> listSize * (i + 1) < TWO_TO_THE_64
  {
    OffsetIsRightIff(listSize, count, i);
    OffsetIsRightIff(listSize, count, i + 1);
    MulMonotone(listSize, i, i + 1);
  }

  /** All offsets of an epoch are right exactly when the largest product fits uint64. */
  lemma OffsetsAreRightIff(listSize: nat, count: nat)
    requires 0 < count < TWO_TO_THE_64
    ensures (forall i :: 0 <= i <= count ==> SplitOffset(listSize, count, i) == Cut(listSize, count, i))
       <==> listSize * count < TWO_TO_THE_64
  {
    OffsetIsRightIff(listSize, count, count);
    forall i: nat | i <= count
      ensures listSize * count < TWO_TO_THE_64 ==> SplitOffset(listSize, count, i) == Cut(listSize, count, i)
    {
      MulMonotone(listSize, i, count);
      OffsetIsRightIff(listSize, count, i);
    }
  }

  lemma WrapsBelow(n: nat)
    requires n >= TWO_TO_THE_64
    ensures n % TWO_TO_THE_64 + TWO_TO_THE_64 <= n
  {}

  /** (slot in epoch, index) pairs and slice numbers correspond one to one. */
  lemma SliceNumberIsBijective(k: nat, i: nat) returns (slot: nat, index: nat)
    requires k > 0 && i < k * SLOTS_PER_EPOCH
    ensures slot < SLOTS_PER_EPOCH && index < k && SliceNumber(k, slot, index) == i
    ensures forall slot': nat, index': nat |
      slot' < SLOTS_PER_EPOCH && index' < k && SliceNumber(k, slot', index') == i
      :: slot' == slot && index' == index
  {
    slot, index := i / k, i % k;
    DivisionInRange(i, k, slot, index, SLOTS_PER_EPOCH);
    forall slot': nat, index': nat |
      slot' < SLOTS_PER_EPOCH && index' < k && SliceNumber(k, slot', index') == i
      ensures slot' == slot && index' == index
    {
      SliceNumberUnique(k, i, slot', index');
    }
  }

  lemma DivisionInRange(i: nat, k: nat, q: nat, r: nat, bound: nat)
    requires k > 0 && q == i / k && r == i % k && i < k * bound
    ensures i == k * q + r && q < bound
  {
    if q >= bound {
      MulMonotone(k, bound, q);
    }
  }

  lemma SliceNumberUnique(k: nat, i: nat, slot: nat, index: nat)
    requires k > 0 && slot < SLOTS_PER_EPOCH && index < k && SliceNumber(k, slot, index) == i
    ensures slot == i / k && index == i % k
  {
    QuotientUnique(i, k, slot, index);
  }

  /** The first `n` committees of the epoch, slot by slot and index by index, joined. */
  function EpochCommittees<V>(entry: Entry<V>, k: nat, n: nat): seq<V>
    requires k > 0 && entry.committeeCount > 0
  {
    if n == 0 then []
    else
      var committee := Committee(entry, (n - 1) / k, (n - 1) % k);
      EpochCommittees(entry, k, n - 1) + if committee.Ok? then committee.value else []
  }

  lemma {:induction false} EpochCommitteesAreSlices<V>(entry: Entry<V>, k: nat, n: nat)
    requires k > 0 && entry.committeeCount == k * SLOTS_PER_EPOCH && n <= entry.committeeCount
    requires |entry.shuffled| * entry.committeeCount < TWO_TO_THE_64
    requires entry.committeeCount < TWO_TO_THE_64
    ensures EpochCommittees(entry, k, n) == Slices(entry.shuffled, entry.committeeCount, n)
  {
    if n > 0 {
      EpochCommitteesAreSlices(entry, k, n - 1);
      NthCommittee(entry, k, n - 1);
    }
  }

  lemma NthCommittee<V>(entry: Entry<V>, k: nat, i: nat)
    requires k > 0 && entry.committeeCount == k * SLOTS_PER_EPOCH && i < entry.committeeCount
    requires |entry.shuffled| * entry.committeeCount < TWO_TO_THE_64
    requires entry.committeeCount < TWO_TO_THE_64
    ensures Committee(entry, i / k, i % k) == Ok(Slice(entry.shuffled, entry.committeeCount, i))
  {
    var slot, index := i / k, i % k;
    DivisionInRange(i, k, slot, index, SLOTS_PER_EPOCH);
    SameSliceNumber(k, slot, index, i);
    MulMonotone(|entry.shuffled|, i + 1, entry.committeeCount);
    CommitteeIsSlice(entry, k, slot, index);
  }

  lemma SameSliceNumber(k: nat, slot: nat, index: nat, i: nat)
    requires slot < SLOTS_PER_EPOCH && i == k * slot + index
    ensures SliceNumber(k, slot, index) == i
  {}

  /**
    The committees of all slots of an epoch, in order, are the shuffled list itself: every
    validator sits in exactly one committee and no look-up fails on the way.
   */
  lemma EpochPartition<V>(entry: Entry<V>, k: nat)
    requires k > 0 && entry.committeeCount == k * SLOTS_PER_EPOCH
    requires |entry.shuffled| * entry.committeeCount < TWO_TO_THE_64
    requires entry.committeeCount < TWO_TO_THE_64
    ensures EpochCommittees(entry, k, entry.committeeCount) == entry.shuffled
  {
    EpochCommitteesAreSlices(entry, k, entry.committeeCount);
    SlicesCoverList(entry.shuffled, entry.committeeCount);
  }
}
