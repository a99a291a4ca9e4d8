/** A run after which the orphan pool holds one block more than its limit. */
module FullPools {
  import opened Options
  import opened Ledger
  import opened OrphanPools

  /** Blocks that follow an unknown one. */
  function BlockOf(): Hash -> Block { (h: Hash) => EmptyBlock(h, 0) }

  lemma BlockFacts(h: Hash)
    ensures BlockOf()(h) == EmptyBlock(h, 0) && EmptyBlock(h, 0).hash == h
  {
  }

  function One(): Orphan { Orphan(EmptyBlock(1, 0), None, ORPHAN_LIFETIME) }

  function Two(): Orphan { Orphan(EmptyBlock(2, 0), None, ORPHAN_LIFETIME + 1) }

  /** Block 1 came in first and has left again.  It is remembered as the oldest, and the n
      blocks that came in later do not expire before it does. */
  predicate Stale(orphans: map<Hash, Orphan>, memory: Option<Orphan>, n: nat) {
    && |orphans| == n && memory == Some(One())
    && forall h :: h in orphans ==> 1 < h <= n + 1 && orphans[h].expiration == ORPHAN_LIFETIME + 1
  }

  lemma NothingExpires(orphans: map<Hash, Orphan>)
    requires forall h :: h in orphans ==> orphans[h].expiration >= 1
    ensures Unexpired(orphans, 1) == orphans
  {
  }

  lemma NoRoom(orphans: map<Hash, Orphan>, memory: Option<Orphan>, n: nat)
    requires Stale(orphans, memory, n)
    ensures Unexpired(orphans, 1) == orphans && !MakesRoom(memory, orphans)
  {
    NothingExpires(orphans);
  }

  /** While the pool is not full the memory stays as it is. */
  lemma StaysStale(orphans: map<Hash, Orphan>, memory: Option<Orphan>, remembered: Option<Orphan>, evicted: set<Hash>,
                   n: nat)
    requires Stale(orphans, memory, n) && n < MAX_ORPHAN_BLOCKS && Evicts(memory, orphans, remembered, evicted)
    ensures evicted == {} && remembered == memory && orphans - {} == orphans
    ensures Stale(orphans[n + 2 := Orphan(EmptyBlock(n + 2, 0), None, ORPHAN_LIFETIME + 1)], remembered, n + 1)
  {
    OneIn(orphans, Orphan(EmptyBlock(n + 2, 0), None, ORPHAN_LIFETIME + 1));
  }

  /** Block 1 comes in at time 0, block 2 at time 1, block 1 finds its parent and leaves, and 100
      more blocks come in at time 1.  For the last of them the pool is full, but what is evicted
      is block 1, which is not there. */
  method OneTooMany() returns (pool: OrphanPool)
    ensures pool.Valid() && |pool.orphans| == 101
  {
    pool := LeaveFirst();
    for n := 1 to MAX_ORPHAN_BLOCKS
      invariant fresh(pool) && pool.Valid() && pool.blockOf == BlockOf()
      invariant Stale(pool.orphans, pool.oldestOrphan, n)
    {
      hide OrphanPool.Valid, Stale, Evicts, MakesRoom, BlockOf, OrphanPool.Capped;
      Add(pool, n);
    }
    Add(pool, MAX_ORPHAN_BLOCKS);
  }

  /** One more block. */
  method Add(pool: OrphanPool, n: nat)
    requires pool.Valid() && pool.blockOf == BlockOf() && Stale(pool.orphans, pool.oldestOrphan, n)
    modifies pool
    ensures pool.Valid() && |pool.orphans| == n + 1
    ensures n < MAX_ORPHAN_BLOCKS ==> Stale(pool.orphans, pool.oldestOrphan, n + 1)
  {
    hide OrphanPool.Valid, Evicts, MakesRoom, BlockOf, OrphanPool.Capped;
    BlockFacts(n + 2);
    ghost var orphans, memory := pool.orphans, pool.oldestOrphan;
    NoRoom(orphans, memory, n);
    ghost var remembered, evicted := pool.AddOrphanBlock(EmptyBlock(n + 2, 0), None, 1);
    if n < MAX_ORPHAN_BLOCKS { StaysStale(orphans, memory, remembered, evicted, n); }
  }

  lemma FirstIn(remembered: Option<Orphan>, evicted: set<Hash>)
    requires Evicts(None, Unexpired(map[], 0), remembered, evicted)
    ensures evicted == {} && remembered == None && Unexpired(map[], 0) - evicted == map[]
  {
    assert Unexpired(map[], 0) == map[];
  }

  lemma SecondIn(orphans: map<Hash, Orphan>, remembered: Option<Orphan>, evicted: set<Hash>)
    requires orphans == map[1 := One()] && Evicts(None, Unexpired(orphans, 1), remembered, evicted)
    ensures evicted == {} && remembered == Some(One()) && Unexpired(orphans, 1) - evicted == orphans
  {
    NothingExpires(orphans);
    assert orphans.Keys == {1};
  }

  lemma FirstOut(orphans: map<Hash, Orphan>, memory: Option<Orphan>)
    requires orphans == map[1 := One()][2 := Two()] - {1}
    requires memory == Some(One())
    ensures Stale(orphans, memory, 1)
  {
    assert orphans.Keys == {2};
  }

  /** The first two blocks come in, and the first leaves. */
  method LeaveFirst() returns (pool: OrphanPool)
    ensures fresh(pool) && pool.Valid() && pool.blockOf == BlockOf() && Stale(pool.orphans, pool.oldestOrphan, 1)
  {
    hide OrphanPool.Valid, MakesRoom, BlockOf, OrphanPool.Capped, Evicts, Unexpired, Stale, EmptyBlock;
    BlockFacts(1);
    BlockFacts(2);
    pool := First();
    ghost var remembered, evicted := pool.AddOrphanBlock(Two().block, None, 1);
    SecondIn(map[1 := One()], remembered, evicted);
    pool.RemoveOrphanBlock(One());
    FirstOut(pool.orphans, pool.oldestOrphan);
  }

  method First() returns (pool: OrphanPool)
    ensures fresh(pool) && pool.Valid() && pool.blockOf == BlockOf()
    ensures pool.orphans == map[1 := One()] && pool.oldestOrphan == None
  {
    hide OrphanPool.Valid, MakesRoom, BlockOf, OrphanPool.Capped, Evicts, Unexpired;
    BlockFacts(1);
    pool := new OrphanPool(BlockOf());
    ghost var remembered, evicted := pool.AddOrphanBlock(One().block, None, 0);
    FirstIn(remembered, evicted);
  }
}
