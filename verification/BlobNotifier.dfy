/**
  The blob notifier map (`blobNotifierMap` in `service.go`) and `missingIndices` (`process_block.go`):
  the mutable pieces of the data-availability check, each proved against the value-level step that the
  protocol in BlobAvailability interleaves.
 */
module BlobNotifier {
  import opened Options

  type Root = nat
  type Commitment = seq<bv8>

  const MAX_BLOBS_PER_BLOCK: nat := 6

  /** What the map records for one root: indices already notified, and the channel in use. */
  datatype Entry = Entry(seen: set<nat>, notifier: Option<nat>)

  const BLANK: Entry := Entry({}, None)

  /** The lock region of `notifyIndex`: the new entry and the channel to send on, if any. */
  function NotifyEntry(e: Entry, idx: nat, unused: nat): (r: (Entry, Option<nat>))
    ensures r.1.Some? <==> idx < MAX_BLOBS_PER_BLOCK && idx !in e.seen
    ensures r.1.Some? ==> r.0.notifier == r.1 && idx in r.0.seen
    ensures r.1.None? ==> r.0 == e
  {
    if idx >= MAX_BLOBS_PER_BLOCK || idx in e.seen then (e, None)
    else
      var c := if e.notifier.Some? then e.notifier.value else unused;
      (Entry(e.seen + {idx}, Some(c)), Some(c))
  }

  /** `forRoot`: the channel in use, made now if there is none. */
  function ForRootEntry(e: Entry, unused: nat): (r: Entry)
    ensures r.notifier.Some? && r.seen == e.seen
  {
    e.(notifier := Some(if e.notifier.Some? then e.notifier.value else unused))
  }

  class BlobNotifierMap {
    var notifiers: map<Root, nat>
    var seenIndex: map<Root, seq<bool>>
    var made: nat   // channels made so far; the next one gets this identity

    ghost predicate Valid()
      reads this
    {
      && (forall r :: r in seenIndex ==> |seenIndex[r]| == MAX_BLOBS_PER_BLOCK)
      && (forall r :: r in notifiers ==> notifiers[r] < made)
    }

    /** The record of one root as a value. */
    ghost function View(r: Root): Entry
      reads this
      requires Valid()
    {
      Entry(if r in seenIndex then set i: nat | i < MAX_BLOBS_PER_BLOCK && seenIndex[r][i] else {},
            if r in notifiers then Some(notifiers[r]) else None)
    }

    constructor ()
      ensures Valid() && made == 0
      ensures forall r {:trigger View(r)} :: View(r) == BLANK
    {
      notifiers, seenIndex, made := map[], map[], 0;
    }

    /** The locked part of `notifyIndex`; the caller then sends `idx` on `send`. */
    method NotifyIndex(root: Root, idx: nat) returns (send: Option<nat>)
      requires Valid()
      modifies this
      ensures Valid() && (View(root), send) == NotifyEntry(old(View(root)), idx, old(made))
      ensures forall r {:trigger View(r)} :: r != root ==> View(r) == old(View(r))
      ensures made == if send == Some(old(made)) then old(made) + 1 else old(made)
    {
      if idx >= MAX_BLOBS_PER_BLOCK {
        return None;
      }
      var seen := if root in seenIndex then seenIndex[root] else seq(MAX_BLOBS_PER_BLOCK, _ => false);
      if seen[idx] {
        return None;
      }
      ghost var before := View(root);
      seen := seen[idx := true];
      seenIndex := seenIndex[root := seen];
      var c: nat;
      if root in notifiers {
        c := notifiers[root];
      } else {
        c := made;
        made := made + 1;
        notifiers := notifiers[root := c];
      }
      send := Some(c);
      assert View(root).seen == before.seen + {idx};
    }

    method ForRoot(root: Root) returns (c: nat)
      requires Valid()
      modifies this
      ensures Valid() && View(root) == ForRootEntry(old(View(root)), old(made)) && View(root).notifier == Some(c)
      ensures made == if old(View(root)).notifier.None? then old(made) + 1 else old(made)
      ensures forall r {:trigger View(r)} :: r != root ==> View(r) == old(View(r))
    {
      if root in notifiers {
        c := notifiers[root];
      } else {
        c := made;
        made := made + 1;
        notifiers := notifiers[root := c];
      }
    }

    method Delete(root: Root)
      requires Valid()
      modifies this
      ensures Valid() && View(root) == BLANK && made == old(made)
      ensures forall r {:trigger View(r)} :: r != root ==> View(r) == old(View(r))
    {
      seenIndex := seenIndex - {root};
      notifiers := notifiers - {root};
    }
  }

  datatype CheckError = MaxBlobsExceeded | StorageFailed

  /** Indices the block commits to. */
  function Needed(expected: seq<Commitment>): set<nat> {
    set i: nat | i < |expected| && |expected[i]| > 0
  }

  function Persisted(indices: seq<bool>): set<nat> {
    set i: nat | i < |indices| && indices[i]
  }

  /** `missingIndices`: exactly the committed indices that storage does not have. */
  method MissingIndices(storage: Result<seq<bool>, CheckError>, expected: seq<Commitment>)
    returns (r: Result<set<nat>, CheckError>)
    requires storage.Ok? ==> |storage.value| == MAX_BLOBS_PER_BLOCK
    ensures r.Ok? <==> expected == [] || (|expected| <= MAX_BLOBS_PER_BLOCK && storage.Ok?)
    ensures |expected| > MAX_BLOBS_PER_BLOCK ==> r == Err(MaxBlobsExceeded)
    ensures r.Ok? && expected == [] ==> r.value == {}
    ensures r.Ok? && storage.Ok? ==> r.value == Needed(expected) - Persisted(storage.value)
  {
    if |expected| == 0 {
      return Ok({});
    }
    if |expected| > MAX_BLOBS_PER_BLOCK {
      return Err(MaxBlobsExceeded);
    }
    if storage.Err? {
      return Err(storage.error);
    }
    var missing: set<nat> := {};
    for i := 0 to |expected|
      invariant missing == Needed(expected[..i]) - Persisted(storage.value)
    {
      assert Needed(expected[..i + 1]) == Needed(expected[..i]) + if |expected[i]| > 0 then {i} else {};
      if |expected[i]| > 0 {
        if !storage.value[i] {
          missing := missing + {i};
        }
      }
    }
    assert expected[..|expected|] == expected;
    return Ok(missing);
  }
}
