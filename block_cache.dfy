/**
 * The bounded block cache behind the file reader of lib/main.js: a table from
 * block index to the bytes of that block, plus a queue that records the order in
 * which indices were inserted. Eviction is first-in-first-out.
 */
module BlockCache {

  import opened Wrappers

  /** The two pieces of state that storeBlockInCache updates together. */
  datatype CacheState = CacheState(blocks: map<nat, seq<bv8>>, queue: seq<nat>)

  const Empty := CacheState(map[], [])

  predicate NoDuplicates(q: seq<nat>) {
    forall i, j :: 0 <= i < j < |q| ==> q[i] != q[j]
  }

  function Elements(q: seq<nat>): set<nat> {
    set i | i in q
  }

  /**
   * The cache invariant: the queue has no duplicates, never has more than `cap`
   * entries, and the cached indices are exactly the queued ones.
   */
  predicate CacheInv(s: CacheState, cap: nat) {
    && NoDuplicates(s.queue)
    && |s.queue| <= cap
    && s.blocks.Keys == Elements(s.queue)
  }

  /** storeBlockInCache(blockIndex, data) (lib/main.js:83-94). */
  function Stored(s: CacheState, cap: nat, i: nat, data: seq<bv8>): CacheState {
    var blocks := s.blocks[i := data];
    if i in s.queue then
      CacheState(blocks, s.queue)
    else
      var q := s.queue + [i];
      if |q| > cap then CacheState(blocks - {q[0]}, q[1..]) else CacheState(blocks, q)
  }

  /** The block stored under `i`, if any (retrieveCachedBlock, lib/main.js:79-81). */
  function Lookup(s: CacheState, i: nat): (r: Option<seq<bv8>>)
    ensures r.Some? <==> i in s.blocks
    ensures r.Some? ==> r.value == s.blocks[i]
  {
    if i in s.blocks then Some(s.blocks[i]) else None
  }

  lemma DropHeadKeepsDistinct(q: seq<nat>)
    requires NoDuplicates(q) && q != []
    ensures NoDuplicates(q[1..])
    ensures Elements(q[1..]) == Elements(q) - {q[0]}
  {
    forall x | x in Elements(q) - {q[0]} ensures x in Elements(q[1..]) {
      var k :| 0 <= k < |q| && q[k] == x;
      assert k != 0;
      assert q[1..][k - 1] == x;
    }
  }

  lemma AppendFreshKeepsDistinct(q: seq<nat>, i: nat)
    requires NoDuplicates(q) && i !in q
    ensures NoDuplicates(q + [i])
    ensures Elements(q + [i]) == Elements(q) + {i}
  {
  }

  /** Storing a block keeps the cache invariant (no duplicates, bounded, table and queue agree). */
  lemma StoredKeepsInv(s: CacheState, cap: nat, i: nat, data: seq<bv8>)
    requires CacheInv(s, cap)
    ensures CacheInv(Stored(s, cap, i, data), cap)
  {
    if i !in s.queue {
      var q := s.queue + [i];
      AppendFreshKeepsDistinct(s.queue, i);
      if |q| > cap {
        DropHeadKeepsDistinct(q);
      }
    }
  }

  /**
   * How storeBlockInCache changes the cache: an index already queued has its data
   * replaced in place; a new index is appended to the queue and, when that makes
   * the queue longer than `cap`, exactly the oldest queued index is evicted.
   */
  lemma StoredEvictsOldest(s: CacheState, cap: nat, i: nat, data: seq<bv8>)
    requires CacheInv(s, cap)
    ensures var r := Stored(s, cap, i, data);
      && (i in s.blocks ==> r == CacheState(s.blocks[i := data], s.queue))
      && (i !in s.blocks && |s.queue| < cap ==>
            r == CacheState(s.blocks[i := data], s.queue + [i]))
      && (i !in s.blocks && |s.queue| == cap && cap > 0 ==>
            r == CacheState((s.blocks - {s.queue[0]})[i := data], s.queue[1..] + [i]))
      && (cap == 0 ==> r == s)
  {
    var r := Stored(s, cap, i, data);
    if i !in s.blocks && |s.queue| == cap && cap > 0 {
      assert i != s.queue[0];
      assert r.blocks == (s.blocks - {s.queue[0]})[i := data];
    }
    if cap == 0 {
      assert s.queue == [];
      assert s.blocks == map[];
    }
  }

  /** After a store into a cache with room for at least one block, the block just stored is served. */
  lemma {:induction false} StoredHoldsNewest(s: CacheState, cap: nat, i: nat, data: seq<bv8>)
    requires CacheInv(s, cap) && cap > 0
    ensures var r := Stored(s, cap, i, data); i in r.blocks && r.blocks[i] == data
  {
    if i !in s.queue && |s.queue + [i]| > cap {
      assert (s.queue + [i])[0] == s.queue[0];
      assert s.queue[0] != i;
    }
  }

  /**
   * Entries other than the stored one are never modified: each survives unchanged
   * or is evicted, and an eviction only happens when the queue was full and then
   * removes its head.
   */
  lemma StoredChangesNoOtherEntry(s: CacheState, cap: nat, i: nat, data: seq<bv8>, j: nat)
    requires CacheInv(s, cap) && j != i
    ensures var r := Stored(s, cap, i, data);
      && (j in r.blocks ==> j in s.blocks && r.blocks[j] == s.blocks[j])
      && (j in s.blocks && j !in r.blocks ==>
            i !in s.queue && |s.queue| == cap && j == s.queue[0])
  {
  }

  /** Cap 2: storing 0, 1, 2 leaves the queue [1, 2]; storing 0 again gives [2, 0]. */
  lemma FifoScenario(b0: seq<bv8>, b1: seq<bv8>, b2: seq<bv8>)
    ensures var s1 := Stored(Stored(Stored(Empty, 2, 0, b0), 2, 1, b1), 2, 2, b2);
      && s1 == CacheState(map[1 := b1, 2 := b2], [1, 2])
      && Stored(s1, 2, 0, b0) == CacheState(map[2 := b2, 0 := b0], [2, 0])
  {
    var a := Stored(Empty, 2, 0, b0);
    assert a == CacheState(map[0 := b0], [0]);
    var b := Stored(a, 2, 1, b1);
    assert b == CacheState(map[0 := b0, 1 := b1], [0, 1]);
    var c := Stored(b, 2, 2, b2);
    assert c.queue == [1, 2];
    assert c.blocks == map[1 := b1, 2 := b2];
    var d := Stored(c, 2, 0, b0);
    assert d.queue == [2, 0];
    assert d.blocks == map[2 := b2, 0 := b0];
  }
}
