/** Blocks whose parent is not known yet, indexed by their own and by their parent's hash. */
module OrphanPools {
  import opened Options
  import opened Ledger

  const MAX_ORPHAN_BLOCKS := 100
  const ORPHAN_LIFETIME := 3600

  datatype Orphan = Orphan(block: Block, height: Option<nat>, expiration: int)

  predicate DistinctHashes(list: seq<Orphan>) {
    forall i, j :: 0 <= i < j < |list| ==> list[i].block.hash != list[j].block.hash
  }

  /** The two indexes describe the same set, and no list is empty. */
  predicate Agree(orphans: map<Hash, Orphan>, prevOrphans: map<Hash, seq<Orphan>>) {
    && (forall h :: h in orphans ==>
          && orphans[h].block.hash == h
          && orphans[h].block.prev in prevOrphans && orphans[h] in prevOrphans[orphans[h].block.prev])
    && (forall p :: p in prevOrphans ==>
          && prevOrphans[p] != [] && DistinctHashes(prevOrphans[p])
          && forall o :: o in prevOrphans[p] ==>
               o.block.prev == p && o.block.hash in orphans && orphans[o.block.hash] == o)
  }

  /** The list without the orphans of the given hash. */
  function Without(list: seq<Orphan>, hash: Hash): seq<Orphan> {
    if list == [] then []
    else if list[0].block.hash == hash then Without(list[1..], hash)
    else [list[0]] + Without(list[1..], hash)
  }

  lemma {:induction false} WithoutKeeps(list: seq<Orphan>, hash: Hash)
    ensures forall o :: o in Without(list, hash) <==> o in list && o.block.hash != hash
    ensures DistinctHashes(list) ==> DistinctHashes(Without(list, hash))
  {
    if list != [] {
      WithoutKeeps(list[1..], hash);
    }
  }

  lemma {:induction false} WithoutAppend(a: seq<Orphan>, b: seq<Orphan>, hash: Hash)
    ensures Without(a + b, hash) == Without(a, hash) + Without(b, hash)
  {
    if a == [] {
      assert a + b == b;
    } else {
      assert (a + b)[1..] == a[1..] + b;
      WithoutAppend(a[1..], b, hash);
    }
  }

  function SetList(prevOrphans: map<Hash, seq<Orphan>>, p: Hash, list: seq<Orphan>): map<Hash, seq<Orphan>> {
    if list == [] then prevOrphans - {p} else prevOrphans[p := list]
  }

  function ListOf(prevOrphans: map<Hash, seq<Orphan>>, p: Hash): seq<Orphan> {
    if p in prevOrphans then prevOrphans[p] else []
  }

  lemma RemoveAgrees(orphans: map<Hash, Orphan>, prevOrphans: map<Hash, seq<Orphan>>, b: Block)
    requires Agree(orphans, prevOrphans)
    requires b.hash in orphans ==> orphans[b.hash].block.prev == b.prev
    ensures Agree(orphans - {b.hash}, SetList(prevOrphans, b.prev, Without(ListOf(prevOrphans, b.prev), b.hash)))
  {
    WithoutKeeps(ListOf(prevOrphans, b.prev), b.hash);
  }

  lemma AddAgrees(orphans: map<Hash, Orphan>, prevOrphans: map<Hash, seq<Orphan>>, o: Orphan)
    requires Agree(orphans, prevOrphans) && o.block.hash !in orphans
    ensures Agree(orphans[o.block.hash := o],
                  prevOrphans[o.block.prev := ListOf(prevOrphans, o.block.prev) + [o]])
  {
  }

  function Unexpired(orphans: map<Hash, Orphan>, now: int): map<Hash, Orphan> {
    map h | h in orphans && now <= orphans[h].expiration :: orphans[h]
  }

  /** Removes every orphan of the given hash, closing each gap in place. */
  method RemoveFromList(orphans: seq<Orphan>, hash: Hash) returns (list: seq<Orphan>)
    ensures list == Without(orphans, hash)
  {
    list := orphans;
    var i := 0;
    while i < |list|
      invariant 0 <= i <= |list| && Without(list[..i], hash) == list[..i]
      invariant Without(list, hash) == Without(orphans, hash)
      decreases |list| - i
    {
      var before, after := list[..i], list[i + 1..];
      assert list == before + ([list[i]] + after) && list[..i + 1] == before + [list[i]];
      WithoutAppend(before, [list[i]] + after, hash);
      WithoutAppend(before, after, hash);
      WithoutAppend(before, [list[i]], hash);
      assert ([list[i]] + after)[1..] == after && [list[i]][1..] == [];
      if list[i].block.hash == hash {
        list := before + after;
        assert list[..i] == before;
      } else {
        i := i + 1;
      }
    }
    assert list[..i] == list;
  }

  class OrphanPool {
    /** The block each hash commits to. */
    ghost const blockOf: Hash -> Block

    var orphans: map<Hash, Orphan>
    var prevOrphans: map<Hash, seq<Orphan>>
    /** May still refer to an orphan that has left the pool. */
    var oldestOrphan: Option<Orphan>

    ghost predicate Valid()
      reads this
    {
      && Agree(orphans, prevOrphans)
      && (forall h :: h in orphans ==> orphans[h].block.hash == h && orphans[h].block == blockOf(h))
      && (oldestOrphan.Some? ==> oldestOrphan.value.block == blockOf(oldestOrphan.value.block.hash))
    }

    /** More than 100 orphans are pooled only while none is remembered, and then it is 101. */
    predicate Capped()
      reads this
    {
      Within(orphans, oldestOrphan)
    }

    constructor (ghost blockOf: Hash -> Block)
      ensures Valid() && orphans == map[] && oldestOrphan == None && this.blockOf == blockOf
    {
      this.blockOf := blockOf;
      orphans, prevOrphans, oldestOrphan := map[], map[], None;
    }

    /** Removes an orphan from both indexes; it need not be in the pool any more. */
    method RemoveOrphanBlock(orphan: Orphan)
      requires Valid() && orphan.block == blockOf(orphan.block.hash)
      modifies `orphans, `prevOrphans
      ensures Valid() && orphans == old(orphans) - {orphan.block.hash}
      ensures old(Capped()) ==> Capped()
    {
      hide Agree, Within;
      FewerWithin(orphans, oldestOrphan, orphan.block.hash);
      var hash, prev := orphan.block.hash, orphan.block.prev;
      RemoveAgrees(orphans, prevOrphans, orphan.block);
      orphans := orphans - {hash};
      var list := RemoveFromList(ListOf(prevOrphans, prev), hash);
      prevOrphans := SetList(prevOrphans, prev, list);
    }

    /** Drops expired orphans and remembers the one that expires first. */
    method ExpireOrphans(now: int)
      requires Valid()
      modifies this
      ensures Valid() && orphans == Unexpired(old(orphans), now)
      ensures Remembers(old(oldestOrphan), orphans, orphans.Keys, oldestOrphan)
    {
      hide Agree;
      var todo := orphans.Keys;
      while todo != {}
        invariant Valid() && todo <= orphans.Keys
        invariant forall h :: h in orphans ==> h in old(orphans) && orphans[h] == old(orphans)[h]
        invariant forall h :: h in old(orphans) && h !in todo ==> (h in orphans <==> now <= old(orphans)[h].expiration)
        invariant forall h :: h in old(orphans) && h in todo ==> h in orphans
        invariant Remembers(old(oldestOrphan), orphans, orphans.Keys - todo, oldestOrphan)
        decreases todo
      {
        var h :| h in todo;
        var o := orphans[h];
        if now > o.expiration {
          ghost var seen, before := orphans.Keys - todo, orphans;
          RemoveOrphanBlock(o);
          assert orphans.Keys - (todo - {h}) == seen;
          RemembersFewer(old(oldestOrphan), before, seen, oldestOrphan, h);
        } else {
          RemembersNext(old(oldestOrphan), orphans, orphans.Keys - todo, oldestOrphan, h);
          assert orphans.Keys - (todo - {h}) == orphans.Keys - todo + {h};
          if oldestOrphan.None? || o.expiration < oldestOrphan.value.expiration { oldestOrphan := Some(o); }
        }
        todo := todo - {h};
      }
      assert orphans.Keys - {} == orphans.Keys;
    }

    /** Expires old orphans and, if the pool is still full, removes the one remembered, which
        may have left the pool before. */
    method MakeRoom(now: int) returns (ghost remembered: Option<Orphan>, ghost evicted: set<Hash>)
      requires Valid()
      modifies this
      ensures Valid() && orphans == Unexpired(old(orphans), now) - evicted
      ensures Evicts(old(oldestOrphan), Unexpired(old(orphans), now), remembered, evicted)
      ensures oldestOrphan == if evicted == {} then remembered else None
    {
      hide Agree;
      ExpireOrphans(now);
      remembered, evicted := oldestOrphan, {};
      if |orphans| + 1 > MAX_ORPHAN_BLOCKS {
        assert orphans != map[];
        evicted := {oldestOrphan.value.block.hash};
        RemoveOrphanBlock(oldestOrphan.value);
        oldestOrphan := None;
      }
    }

    /** Adds a block, first dropping expired orphans and, when the pool is full, the orphan
        remembered as oldest. */
    method AddOrphanBlock(block: Block, height: Option<nat>, now: int)
      returns (ghost remembered: Option<Orphan>, ghost evicted: set<Hash>)
      requires Valid() && block == blockOf(block.hash) && block.hash !in orphans
      modifies this
      ensures Valid()
      ensures Evicts(old(oldestOrphan), Unexpired(old(orphans), now), remembered, evicted)
      ensures orphans ==
              (Unexpired(old(orphans), now) - evicted)[block.hash := Orphan(block, height, now + ORPHAN_LIFETIME)]
      ensures block.hash in orphans && orphans[block.hash].expiration == now + 3600
      ensures oldestOrphan == if evicted == {} then remembered else None
      ensures |orphans| == |Unexpired(old(orphans), now)| +
                           if MakesRoom(old(oldestOrphan), Unexpired(old(orphans), now)) then 0 else 1
      ensures old(Capped()) ==> Capped()
    {
      hide OrphanPool.Valid, Evicts, MakesRoom, Within, Unexpired;
      ghost var all, before := orphans, oldestOrphan;
      Keyed(now);
      remembered, evicted := MakeRoom(now);
      var o := Orphan(block, height, now + ORPHAN_LIFETIME);
      SizeAfter(before, Unexpired(all, now), remembered, evicted, o);
      StaysWithin(all, before, now, remembered, evicted, o);
      Insert(o);
    }

    lemma Keyed(now: int)
      requires Valid()
      ensures forall h :: h in Unexpired(orphans, now) ==> h in orphans && Unexpired(orphans, now)[h].block.hash == h
    {
      hide Agree;
    }

    /** Files an orphan in both indexes. */
    method Insert(o: Orphan)
      requires Valid() && o.block == blockOf(o.block.hash) && o.block.hash !in orphans
      modifies `orphans, `prevOrphans
      ensures Valid() && orphans == old(orphans)[o.block.hash := o]
    {
      hide Agree;
      AddAgrees(orphans, prevOrphans, o);
      orphans := orphans[o.block.hash := o];
      prevOrphans := prevOrphans[o.block.prev := ListOf(prevOrphans, o.block.prev) + [o]];
    }
  }

  /** Among the old memory and the orphans seen, `now` expires first; the memory changes only to
      an orphan that expires strictly earlier. */
  predicate Remembers(before: Option<Orphan>, orphans: map<Hash, Orphan>, seen: set<Hash>, now: Option<Orphan>)
    requires seen <= orphans.Keys
  {
    && (now.None? <==> before.None? && seen == {})
    && (now.Some? ==>
          && (forall h :: h in seen ==> now.value.expiration <= orphans[h].expiration)
          && (now == before || (exists h :: h in seen && now == Some(orphans[h])))
          && (before.Some? && now != before ==> now.value.expiration < before.value.expiration))
  }

  lemma RemembersNext(before: Option<Orphan>, orphans: map<Hash, Orphan>, seen: set<Hash>, now: Option<Orphan>, h: Hash)
    requires seen <= orphans.Keys && h in orphans && Remembers(before, orphans, seen, now)
    ensures Remembers(before, orphans, seen + {h},
              if now.None? || orphans[h].expiration < now.value.expiration then Some(orphans[h]) else now)
  {
  }

  lemma RemembersFewer(before: Option<Orphan>, orphans: map<Hash, Orphan>, seen: set<Hash>, now: Option<Orphan>,
                       h: Hash)
    requires seen <= orphans.Keys && h !in seen && Remembers(before, orphans, seen, now)
    ensures Remembers(before, orphans - {h}, seen, now)
  {
    if x :| x in seen && now == Some(orphans[x]) { assert now == Some((orphans - {h})[x]); }
  }

  /** A full pool loses exactly the orphan remembered as oldest, if it is still there. */
  predicate Evicts(before: Option<Orphan>, orphans: map<Hash, Orphan>, remembered: Option<Orphan>, evicted: set<Hash>) {
    && Remembers(before, orphans, orphans.Keys, remembered)
    && if |orphans| >= MAX_ORPHAN_BLOCKS then remembered.Some? && evicted == {remembered.value.block.hash}
       else evicted == {}
  }

  /** Whether a block that comes in takes the place of another one: the pool is full, and the
      orphan remembered is still in it or expires later than some that is. */
  predicate MakesRoom(before: Option<Orphan>, orphans: map<Hash, Orphan>) {
    && |orphans| >= MAX_ORPHAN_BLOCKS
    && (|| before.None? || before.value.block.hash in orphans
        || exists h :: h in orphans && orphans[h].expiration < before.value.expiration)
  }

  /** The size of the pool after a block has come in. */
  lemma SizeAfter(before: Option<Orphan>, orphans: map<Hash, Orphan>, remembered: Option<Orphan>, evicted: set<Hash>,
                  added: Orphan)
    requires Evicts(before, orphans, remembered, evicted) && added.block.hash !in orphans
    requires forall h :: h in orphans ==> orphans[h].block.hash == h
    ensures |(orphans - evicted)[added.block.hash := added]| == |orphans| + if MakesRoom(before, orphans) then 0 else 1
  {
    EvictedIff(before, orphans, remembered, evicted);
    hide Evicts, MakesRoom;
    OneIn(orphans - evicted, added);
    if evicted == {} {
      assert orphans - evicted == orphans;
    } else {
      OneOut(orphans, remembered.value.block.hash);
    }
  }

  lemma EvictedIff(before: Option<Orphan>, orphans: map<Hash, Orphan>, remembered: Option<Orphan>, evicted: set<Hash>)
    requires Evicts(before, orphans, remembered, evicted)
    requires forall h :: h in orphans ==> orphans[h].block.hash == h
    ensures evicted != {} <==> |orphans| >= MAX_ORPHAN_BLOCKS
    ensures evicted != {} ==> remembered.Some? && evicted == {remembered.value.block.hash}
    ensures MakesRoom(before, orphans) <==> evicted != {} && remembered.value.block.hash in orphans
  {
  }

  /** A pool of at most 100 stays within 100, whatever has happened before, exactly unless it is
      full, the orphan remembered has left it and none that is in it expires earlier. */
  lemma CapHoldsIff(before: Option<Orphan>, orphans: map<Hash, Orphan>, remembered: Option<Orphan>, evicted: set<Hash>,
                    added: Orphan)
    requires Evicts(before, orphans, remembered, evicted) && added.block.hash !in orphans
    requires forall h :: h in orphans ==> orphans[h].block.hash == h
    ensures |(orphans - evicted)[added.block.hash := added]| <= 100 <==>
            |orphans| < 100 || (|orphans| == 100 && MakesRoom(before, orphans))
  {
    SizeAfter(before, orphans, remembered, evicted, added);
  }

  predicate Within(orphans: map<Hash, Orphan>, memory: Option<Orphan>) {
    |orphans| <= MAX_ORPHAN_BLOCKS || (|orphans| == MAX_ORPHAN_BLOCKS + 1 && memory.None?)
  }

  lemma FewerWithin(orphans: map<Hash, Orphan>, memory: Option<Orphan>, h: Hash)
    ensures Within(orphans, memory) ==> Within(orphans - {h}, memory)
  {
    OneOut(orphans, h);
  }

  /** The pool never gets larger than 101: beyond 100 none is remembered, so the next block finds
      the oldest orphan anew and takes its place. */
  lemma StaysWithin(all: map<Hash, Orphan>, before: Option<Orphan>, now: int, remembered: Option<Orphan>,
                    evicted: set<Hash>, added: Orphan)
    requires var orphans := Unexpired(all, now);
             && Evicts(before, orphans, remembered, evicted) && added.block.hash !in orphans
             && forall h :: h in orphans ==> orphans[h].block.hash == h
    ensures var after := (Unexpired(all, now) - evicted)[added.block.hash := added];
            Within(all, before) ==> Within(after, if evicted == {} then remembered else None) && |after| <= 101
  {
    var orphans := Unexpired(all, now);
    SizeAfter(before, orphans, remembered, evicted, added);
    EvictedIff(before, orphans, remembered, evicted);
    FewerIn(orphans.Keys, all.Keys);
  }

  lemma {:induction false} FewerIn(a: set<Hash>, b: set<Hash>)
    requires a <= b
    ensures |a| <= |b|
  {
    if x :| x in a { FewerIn(a - {x}, b - {x}); }
  }

  lemma OneOut(orphans: map<Hash, Orphan>, h: Hash)
    ensures |orphans - {h}| == |orphans| - if h in orphans then 1 else 0
  {
    assert (orphans - {h}).Keys == orphans.Keys - {h};
    if h !in orphans { assert orphans.Keys - {h} == orphans.Keys; }
  }

  lemma OneIn(orphans: map<Hash, Orphan>, added: Orphan)
    requires added.block.hash !in orphans
    ensures |orphans[added.block.hash := added]| == |orphans| + 1
  {
    assert orphans[added.block.hash := added].Keys == orphans.Keys + {added.block.hash};
  }
}
