/**
  The write-back cache of blocks received during initial sync, in front of the database.
  Lookups go through both and must agree with one plain map of all blocks saved.
 */
module InitSyncCache {
  import opened Options

  type Root = nat

  /** A block knows its own root; the rest of it is kept abstract. */
  datatype Block = Block(root: Root, contents: nat)

  /** Two epochs worth of blocks. */
  const CACHE_LIMIT: nat := 2 * 32

  datatype State = State(cache: map<Root, Block>, db: map<Root, Block>)

  predicate KeyedByRoot(m: map<Root, Block>) {
    forall r :: r in m ==> m[r].root == r
  }

  predicate Agree(a: map<Root, Block>, b: map<Root, Block>) {
    forall r :: r in a && r in b ==> a[r] == b[r]
  }

  /** Blocks are stored under their own root, and a root denotes one block. */
  predicate Valid(s: State) {
    KeyedByRoot(s.cache) && KeyedByRoot(s.db) && Agree(s.cache, s.db)
  }

  /** The plain map that cache and database stand for. */
  function Contents(s: State): map<Root, Block> {
    s.db + s.cache
  }

  datatype Failure = DatabaseError | BlockNotFound

  datatype Op =
    | Save(block: Block)
    | Flush
    | Get(root: Root, dbFails: bool)
    | Has(root: Root)

  datatype Reply = Saved(ok: bool) | Got(result: Result<Block, Failure>) | Exists(found: bool)

  /** What each operation promises, in terms of the plain map only. */
  predicate Step(s: State, op: Op, s': State, reply: Reply) {
    && Valid(s')
    && match op
       case Save(b) =>
         && Contents(s') == Contents(s)[b.root := b]
         && reply.Saved? && (reply.ok ==> |s'.cache| <= CACHE_LIMIT)
       case Flush =>
         && Contents(s') == Contents(s)
         && reply.Saved? && (reply.ok ==> s'.cache == map[])
       case Get(r, dbFails) =>
         && s' == s
         && reply == Got(if r in Contents(s) && (r in s.cache || !dbFails) then Ok(Contents(s)[r])
                         else if r !in s.cache && dbFails then Err(DatabaseError)
                         else Err(BlockNotFound))
       case Has(r) =>
         s' == s && reply == Exists(r in Contents(s))
  }

  /** A root that is saved again denotes the same block. */
  predicate Consistent(s: State, op: Op) {
    op.Save? && op.block.root in Contents(s) ==> Contents(s)[op.block.root] == op.block
  }

  lemma MoveToDatabase(s: State, moved: map<Root, Block>)
    requires Valid(s) && forall r :: r in moved ==> r in s.cache && moved[r] == s.cache[r]
    ensures Valid(State(s.cache, s.db + moved))
    ensures Contents(State(s.cache, s.db + moved)) == Contents(s)
  {}

  lemma CacheInsert(s: State, b: Block)
    requires Valid(s) && Consistent(s, Save(b))
    ensures var s' := State(s.cache[b.root := b], s.db);
            Valid(s') && Contents(s') == Contents(s)[b.root := b]
  {}

  /** Clearing the cache is harmless exactly when the database already has every cached block. */
  lemma ClearKeepsContentsIff(s: State)
    requires Valid(s)
    ensures Contents(State(map[], s.db)) == Contents(s) <==> s.cache.Keys <= s.db.Keys
  {
    assert Contents(State(map[], s.db)) == s.db;
    if s.cache.Keys <= s.db.Keys {
      assert Contents(s) == s.db;
    } else {
      var r :| r in s.cache && r !in s.db;
      assert r in Contents(s);
    }
  }

  class BlockCache {
    var initSyncBlocks: map<Root, Block>
    var db: map<Root, Block>

    function View(): State
      reads this
    {
      State(initSyncBlocks, db)
    }

    constructor (stored: map<Root, Block>)
      requires KeyedByRoot(stored)
      ensures View() == State(map[], stored) && Valid(View())
    {
      initSyncBlocks, db := map[], stored;
    }

    /** `getInitSyncBlocks`: all cached blocks, in no particular order. */
    method GetInitSyncBlocks() returns (blks: seq<Block>)
      requires Valid(View())
      ensures forall b :: b in blks <==> b.root in initSyncBlocks && initSyncBlocks[b.root] == b
    {
      blks := [];
      var todo := initSyncBlocks.Keys;
      while todo != {}
        invariant todo <= initSyncBlocks.Keys
        invariant forall b :: b in blks <==>
          b.root in initSyncBlocks.Keys - todo && initSyncBlocks[b.root] == b
        decreases todo
      {
        var r :| r in todo;
        blks := blks + [initSyncBlocks[r]];
        todo := todo - {r};
      }
    }

    /** `BeaconDB.SaveBlocks`; a failure may leave any prefix of the list stored. */
    method SaveBlocks(blks: seq<Block>, failAt: Option<nat>) returns (ok: bool)
      requires Valid(View())
      requires forall b :: b in blks ==> b.root in initSyncBlocks && initSyncBlocks[b.root] == b
      modifies this`db
      ensures Valid(View()) && Contents(View()) == old(Contents(View()))
      ensures ok ==> forall b :: b in blks ==> b.root in db
      ensures failAt.None? ==> ok
    {
      for k := 0 to |blks|
        invariant Valid(View()) && Contents(View()) == old(Contents(View()))
        invariant forall j :: 0 <= j < k ==> blks[j].root in db
      {
        if failAt == Some(k) {
          return false;
        }
        var b := blks[k];
        assert b in blks;
        MoveToDatabase(View(), map[b.root := b]);
        db := db + map[b.root := b];
      }
      return true;
    }

    /** The flush of `verifyBlkPreState` and `updateFinalized`: save, then clear. */
    method Flush(failAt: Option<nat>) returns (ok: bool)
      requires Valid(View())
      modifies this
      ensures Step(old(View()), Op.Flush, View(), Saved(ok))
      ensures !ok ==> initSyncBlocks == old(initSyncBlocks)
      ensures failAt.None? ==> ok
    {
      var blks := GetInitSyncBlocks();
      ok := SaveBlocks(blks, failAt);
      if ok {
        forall r | r in initSyncBlocks ensures r in db {
          assert initSyncBlocks[r] in blks;
        }
        ClearKeepsContentsIff(View());
        initSyncBlocks := map[];
      }
    }

    /** `saveInitSyncBlock`. */
    method SaveInitSyncBlock(r: Root, b: Block, failAt: Option<nat>) returns (ok: bool)
      requires Valid(View()) && r == b.root && Consistent(View(), Save(b))
      modifies this
      ensures Step(old(View()), Save(b), View(), Saved(ok))
      // flushed exactly when it then held more than 64 blocks
      ensures var added := old(initSyncBlocks)[r := b];
              initSyncBlocks == if |added| > 64 && ok then map[] else added
      ensures failAt.None? || |old(initSyncBlocks)[r := b]| <= 64 ==> ok
    {
      CacheInsert(View(), b);
      initSyncBlocks := initSyncBlocks[r := b];
      ok := true;
      if |initSyncBlocks| > CACHE_LIMIT {
        ok := Flush(failAt);
      }
    }

    /** `hasBlockInInitSyncOrDB`. */
    method HasBlockInInitSyncOrDB(r: Root) returns (found: bool)
      requires Valid(View())
      ensures Step(View(), Has(r), View(), Exists(found))
    {
      if r in initSyncBlocks {
        return true;
      }
      return r in db;
    }

    /** `getBlock`; `dbFails` is a database read error. */
    method GetBlock(r: Root, dbFails: bool) returns (result: Result<Block, Failure>)
      requires Valid(View())
      ensures Step(View(), Get(r, dbFails), View(), Got(result))
    {
      if r in initSyncBlocks {
        return Ok(initSyncBlocks[r]);
      }
      if dbFails {
        return Err(DatabaseError);
      }
      return if r in db then Ok(db[r]) else Err(BlockNotFound);
    }
  }

  // ---- Runs ----

  predicate IsRun(states: seq<State>, ops: seq<Op>, replies: seq<Reply>) {
    && |states| == |ops| + 1
    && |replies| == |ops|
    && Valid(states[0])
    && forall i :: 0 <= i < |ops| ==>
         Consistent(states[i], ops[i]) && Step(states[i], ops[i], states[i + 1], replies[i])
  }

  /** The plain map: the blocks there were, plus every block saved since. */
  function AllSaved(start: map<Root, Block>, ops: seq<Op>): map<Root, Block> {
    if ops == [] then start
    else
      var before := AllSaved(start, ops[..|ops| - 1]);
      var op := ops[|ops| - 1];
      if op.Save? then before[op.block.root := op.block] else before
  }

  lemma {:induction false} ContentsAreAllSaved(states: seq<State>, ops: seq<Op>, replies: seq<Reply>, k: nat)
    requires IsRun(states, ops, replies) && k <= |ops|
    ensures Contents(states[k]) == AllSaved(Contents(states[0]), ops[..k])
  {
    if k > 0 {
      ContentsAreAllSaved(states, ops, replies, k - 1);
      assert Step(states[k - 1], ops[k - 1], states[k - 1 + 1], replies[k - 1]);
      assert ops[..k][..k - 1] == ops[..k - 1];
    }
  }

  /** In every run, lookups answer as the plain map would; a block once saved is always found. */
  lemma LookupsAgree(states: seq<State>, ops: seq<Op>, replies: seq<Reply>, k: nat)
    requires IsRun(states, ops, replies) && k < |ops|
    ensures var all := AllSaved(Contents(states[0]), ops[..k]);
      match ops[k]
      case Has(r) => replies[k] == Exists(r in all)
      case Get(r, dbFails) =>
        && replies[k].Got?
        && (!dbFails ==> replies[k].result == if r in all then Ok(all[r]) else Err(BlockNotFound))
        && (replies[k].result.Ok? ==> r in all && replies[k].result.value == all[r])
      case _ => true
  {
    ContentsAreAllSaved(states, ops, replies, k);
    assert Step(states[k], ops[k], states[k + 1], replies[k]);
  }
}
