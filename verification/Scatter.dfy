/** The chunking arithmetic of `Scatter` (`scatter.go`). */
module Scatter {

  datatype Chunk = Chunk(offset: nat, entries: nat)

  /** `calculateChunkSize` for `procs` processors. */
  function ChunkSize(items: nat, procs: nat): (size: nat)
    requires procs > 0
    ensures 0 < size <= items / procs + 1
  {
    var even := items / procs;
    if even == 0 || items % even != 0 then even + 1 else even
  }

  function Workers(items: nat, size: nat): nat
    requires size > 0
  {
    items / size + if items % size != 0 then 1 else 0
  }

  /** The chunks follow each other without gap or overlap and end at `end`. */
  predicate Tiles(chunks: seq<Chunk>, end: nat) {
    if chunks == [] then end == 0
    else
      var last := chunks[|chunks| - 1];
      && last.entries > 0
      && last.offset + last.entries == end
      && Tiles(chunks[..|chunks| - 1], last.offset)
  }

  /** What tiling means point by point: every input position lies in exactly one chunk. */
  lemma {:induction false} TilingCoversOnce(chunks: seq<Chunk>, end: nat, x: nat) returns (w: nat)
    requires Tiles(chunks, end) && x < end
    ensures w < |chunks| && chunks[w].offset <= x < chunks[w].offset + chunks[w].entries
    ensures forall v :: 0 <= v < |chunks| && v != w ==>
      x < chunks[v].offset || chunks[v].offset + chunks[v].entries <= x
    ensures forall v :: 0 <= v < |chunks| ==> chunks[v].offset + chunks[v].entries <= end
  {
    var n := |chunks| - 1;
    var last := chunks[n];
    var rest := chunks[..n];
    TilesEndsWithin(rest, last.offset);
    if x < last.offset {
      w := TilingCoversOnce(rest, last.offset, x);
      assert rest[w] == chunks[w];
    } else {
      w := n;
    }
    forall v | 0 <= v < n
      ensures chunks[v].offset + chunks[v].entries <= last.offset
      ensures v != w ==> x < chunks[v].offset || chunks[v].offset + chunks[v].entries <= x
    {
      assert rest[v] == chunks[v];
    }
  }

  lemma {:induction false} TilesEndsWithin(chunks: seq<Chunk>, end: nat)
    requires Tiles(chunks, end)
    ensures forall v :: 0 <= v < |chunks| ==> chunks[v].offset + chunks[v].entries <= end
  {
    if chunks != [] {
      var n := |chunks| - 1;
      TilesEndsWithin(chunks[..n], chunks[n].offset);
      forall v | 0 <= v < n ensures chunks[v].offset + chunks[v].entries <= end {
        assert chunks[..n][v] == chunks[v];
      }
    }
  }

  /** `workers` is the ceiling of items/size. */
  lemma WorkersIsCeiling(items: nat, size: nat, workers: nat)
    requires items > 0 && size > 0 && workers == Workers(items, size)
    ensures workers > 0
    ensures (workers - 1) * size < items <= workers * size
  {
    var q := items / size;
    assert items == q * size + items % size;
    if items % size != 0 {
      assert (q + 1) * size == q * size + size;
    } else {
      assert q > 0;
      assert (q - 1) * size == q * size - size;
    }
  }

  lemma ProductBound(a: nat, b: nat, c: nat)
    requires a <= b
    ensures a * c <= b * c
  {}

  /** Fewer than two workers per processor: at most 2P-1 for every input length. */
  lemma AtMostTwoPerProcessor(items: nat, procs: nat)
    requires items > 0 && procs > 0
    ensures Workers(items, ChunkSize(items, procs)) <= 2 * procs - 1
  {
    var even := items / procs;
    var size := ChunkSize(items, procs);
    var workers := Workers(items, size);
    assert items < procs * (even + 1) by {
      assert items == procs * even + items % procs;
      assert procs * (even + 1) == procs * even + procs;
    }
    WorkersIsCeiling(items, size, workers);
    if size == even + 1 {
      CeilingAtMost(workers, procs, size, items);
    } else {
      assert procs * (even + 1) == procs * even + procs;
      ProductBound(1, even, procs);
      assert items < (2 * procs) * size;
      ExactQuotientBelow(items, size, workers, 2 * procs);
    }
  }

  lemma CeilingAtMost(workers: nat, procs: nat, size: nat, items: nat)
    requires workers > 0 && procs > 0 && (workers - 1) * size < items < procs * size
    ensures workers <= procs
  {
    var before: nat := workers - 1;
    if before >= procs {
      ProductBound(procs, before, size);
    }
  }

  lemma ExactQuotientBelow(items: nat, size: nat, workers: nat, bound: nat)
    requires size > 0 && items % size == 0 && workers == items / size && items < bound * size
    ensures workers < bound
  {
    assert items == workers * size;
    if workers >= bound {
      ProductBound(bound, workers, size);
    }
  }

  /** The bound is tight: with 2P-1 items every item gets its own worker. */
  lemma BoundIsTight(procs: nat)
    requires procs > 0
    ensures Workers(2 * procs - 1, ChunkSize(2 * procs - 1, procs)) == 2 * procs - 1
  {
    var items := 2 * procs - 1;
    assert items / procs == 1 by {
      assert items == procs * 1 + (procs - 1);
    }
  }

  /** The worker loop of `Scatter`; `ok` is false for a non-positive input length. */
  method Chunks(inputLen: int, procs: nat) returns (ok: bool, chunks: seq<Chunk>)
    requires procs > 0
    ensures ok <==> inputLen > 0
    ensures ok ==> Tiles(chunks, inputLen)
    ensures ok ==> |chunks| <= 2 * procs - 1
    ensures ok ==> forall w :: 0 <= w < |chunks| ==> chunks[w].entries <= inputLen / procs + 1
    ensures !ok ==> chunks == []
  {
    chunks := [];
    if inputLen <= 0 {
      return false, [];
    }
    var size := ChunkSize(inputLen, procs);
    var workers := Workers(inputLen, size);
    WorkersIsCeiling(inputLen, size, workers);
    AtMostTwoPerProcessor(inputLen, procs);
    for worker := 0 to workers
      invariant |chunks| == worker
      invariant forall w :: 0 <= w < worker ==> chunks[w].entries <= size
      invariant Tiles(chunks, if worker == workers then inputLen else worker * size)
    {
      var offset := worker * size;
      ChunkFits(worker, workers, size, inputLen);
      var entries := if offset + size > inputLen then inputLen - offset else size;
      chunks := chunks + [Chunk(offset, entries)];
      assert chunks[..worker] + [Chunk(offset, entries)] == chunks;
    }
    ok := true;
  }

  lemma ChunkFits(worker: nat, workers: nat, size: nat, items: nat)
    requires worker < workers && (workers - 1) * size < items <= workers * size
    ensures worker * size < items
    ensures worker + 1 == workers ==> items <= worker * size + size
    ensures worker + 1 < workers ==> worker * size + size == (worker + 1) * size < items
  {
    ProductBound(worker, workers - 1, size);
    if worker + 1 < workers {
      ProductBound(worker + 1, workers - 1, size);
    }
  }
}
