/** A run that leaves blocks of two chains in the stored checkpoint cache, and what a peer is
    sent then. */
module TornCaches {
  import opened Options
  import opened Ledger
  import opened BlockTree
  import opened ChainRules
  import opened ChainViews
  import opened CFCheckpoints
  import opened CFCheckpointRuns

  // ----- two chains from one genesis block

  /** Block k of the chain with even hashes, or of the one with odd hashes. */
  function HashOf(odd: bool, k: nat): Hash { if k == 0 then 1 else if odd then 2 * k + 1 else 2 * k }

  function Chain(odd: bool, k: nat): BlockNode {
    if k == 0 then Genesis(EmptyBlock(1, 0))
    else Child(Chain(odd, k - 1), EmptyBlock(HashOf(odd, k), HashOf(odd, k - 1)))
  }

  lemma {:induction false} ChainAt(odd: bool, k: nat, j: nat)
    requires j <= k
    ensures Height(Chain(odd, k)) == k && At(Chain(odd, k), j) == Chain(odd, j)
    ensures Chain(odd, k).block.hash == HashOf(odd, k)
    decreases k
  {
    if k > 0 {
      ChainAt(odd, k - 1, if j < k then j else 0);
    }
  }

  function NodeOf(h: Hash): BlockNode { if h % 2 == 0 then Chain(false, h / 2) else Chain(true, h / 2) }

  /** The index of both chains, each with `top` blocks above genesis. */
  function Both(top: nat): map<Hash, BlockNode> { map h: Hash | 1 <= h < 2 * top + 2 :: NodeOf(h) }

  lemma NodeIs(odd: bool, k: nat, top: nat)
    requires k <= top
    ensures Indexed(Both(top), Chain(odd, k))
  {
    ChainAt(odd, k, 0);
    if k > 0 { assert (2 * k + 1) / 2 == k && (2 * k) / 2 == k; }
  }

  lemma BothIsTree(top: nat)
    ensures Tree(Both(top), Chain(false, 0)) && 0 !in Both(top)
  {
    var index := Both(top);
    forall h | h in index
      ensures && index[h].block.hash == h && Root(index[h]) == Chain(false, 0)
              && (index[h].Child? ==>
                    Indexed(index, index[h].parent) && index[h].block.prev == index[h].parent.block.hash)
    {
      var odd, k := h % 2 == 1, h / 2;
      ChainAt(odd, k, 0);
      if k > 0 {
        ChainAt(odd, k - 1, 0);
        NodeIs(odd, k - 1, top);
      }
    }
  }

  // ----- three requests

  function Short(): BlockNode { Chain(false, 2 * CF_CHECKPT_INTERVAL) }

  function Long(): BlockNode { Chain(true, 3 * CF_CHECKPT_INTERVAL) }

  function Index(): map<Hash, BlockNode> { Both(3 * CF_CHECKPT_INTERVAL) }

  lemma ShortHashes()
    ensures IntervalHashes(Short(), CF_CHECKPT_INTERVAL) == [2000, 4000]
  {
    ChainAt(false, 2000, 1000);
    ChainAt(false, 2000, 2000);
    ChainAt(false, 1000, 0);
    HashesAt(Short(), 1000, 0);
    HashesAt(Short(), 1000, 1);
  }

  lemma LongHashes()
    ensures IntervalHashes(Long(), CF_CHECKPT_INTERVAL) == [2001, 4001, 6001]
  {
    ChainAt(true, 3000, 1000);
    ChainAt(true, 3000, 2000);
    ChainAt(true, 3000, 3000);
    ChainAt(true, 1000, 0);
    ChainAt(true, 2000, 0);
    HashesAt(Long(), 1000, 0);
    HashesAt(Long(), 1000, 1);
    HashesAt(Long(), 1000, 2);
  }

  function Itself(): Hash -> Hash { h => h }

  function FindsAll(): Lookup { h => Some(h) }

  function MissesOne(): Lookup { h => if h == 4001 then None else Some(h) }

  /** Every header is the hash itself. */
  function ExampleWorld(): World { World(Chain(false, 0), Itself(), CF_CHECKPT_INTERVAL) }

  /** A peer asks for the short chain; one asks for the long chain, whose second header is not
      there yet, while the stored array has room; a third asks for the short chain again. */
  function ExampleRun(): seq<CFCheckpointRuns.Event> {
    [Request(Short(), FindsAll(), false), Request(Long(), MissesOne(), true), Request(Short(), FindsAll(), true)]
  }

  lemma ExampleIsTree()
    ensures ExampleWorld().Indexes(Index()) && Indexed(Index(), Chain(false, 0))
    ensures Indexed(Index(), Short()) && Indexed(Index(), Long())
  {
    BothIsTree(3000);
    NodeIs(false, 0, 3000);
    NodeIs(false, 2000, 3000);
    NodeIs(true, 3000, 3000);
  }

  lemma FirstRequest()
    ensures var hashes, after := [2000, 4000], [HeaderKV(2000, 2000), HeaderKV(4000, 4000)];
            && Answer([], hashes, FindsAll()) == after && Reply([], hashes, FindsAll()).Some?
            && CacheAfter([], hashes, FindsAll(), false) == after
  {
    var hashes: seq<Hash> := [2000, 4000];
    var grown := [BLANK, BLANK];
    assert Blanks(1) == [BLANK] && Blanks(2) == grown;
    assert Grown([], 2) == grown;
    assert ForkIdx(grown, hashes, 1) == 0 && ForkIdx(grown, hashes, 2) == 0;
    assert hashes[0..] == hashes && hashes[1..] == [4000] && hashes[1..][1..] == [];
    assert EntriesFrom(FindsAll(), [4000]) == [HeaderKV(4000, 4000)];
  }

  lemma SecondRequest()
    ensures var cache, hashes := [HeaderKV(2000, 2000), HeaderKV(4000, 4000)], [2001, 4001, 6001];
            && Answer(cache, hashes, MissesOne()) == [HeaderKV(2001, 2001)]
            && CacheAfter(cache, hashes, MissesOne(), true) == [HeaderKV(2001, 2001), HeaderKV(4000, 4000)]
            && LeftHalfWritten(cache, hashes, MissesOne(), true)
  {
    var cache, hashes: seq<Hash> := [HeaderKV(2000, 2000), HeaderKV(4000, 4000)], [2001, 4001, 6001];
    assert Blanks(1) == [BLANK];
    var grown := [HeaderKV(2000, 2000), HeaderKV(4000, 4000), BLANK];
    assert Grown(cache, 3) == grown;
    assert ForkIdx(grown, hashes, 1) == 0 && ForkIdx(grown, hashes, 2) == 0 && ForkIdx(grown, hashes, 3) == 0;
    assert hashes[0..] == hashes && hashes[1..] == [4001, 6001];
    assert EntriesFrom(MissesOne(), [4001, 6001]) == [];
    assert EntriesFrom(MissesOne(), hashes) == [HeaderKV(2001, 2001)];
  }

  lemma ThirdRequest()
    ensures Reply([HeaderKV(2001, 2001), HeaderKV(4000, 4000)], [2000, 4000], FindsAll()) == Some([2001, 4000])
    ensures Uncached([2000, 4000], Itself()) == [2000, 4000]
  {
    var cache := [HeaderKV(2001, 2001), HeaderKV(4000, 4000)];
    LastMatches(cache, [2000, 4000], FindsAll());
    assert cache[..1] == [HeaderKV(2001, 2001)] && Headers(cache[..1]) == [2001];
    assert Headers(cache) == [2001, 4000];
  }

  /** From the empty cache, a run in which the third peer is sent the header of block 2001 as if
      it were that of block 2000. */
  lemma TornRun()
    ensures var w, start, run := ExampleWorld(), Server(Index(), []), ExampleRun();
            && w.interval == CF_CHECKPT_INTERVAL && w.Holds(start) && w.IsRun(start, run)
            && !w.Tears(start, run[0]) && w.Tears(w.StateAt(start, run, 1), run[1])
            && w.StateAt(start, run, 2).cache == [HeaderKV(2001, 2001), HeaderKV(4000, 4000)]
            && var hashes := IntervalHashes(run[2].stop, w.interval);
            && Reply(w.StateAt(start, run, 2).cache, hashes, run[2].lookup) == Some([2001, 4000])
            && Uncached(hashes, w.headerOf) == [2000, 4000]
  {
    var w, start, run := ExampleWorld(), Server(Index(), []), ExampleRun();
    hide Index, Short, Long, IntervalHashes, CacheAfter, LeftHalfWritten, Coherent, Tree, Indexed, Reply, Chain;
    ExampleSteps();
    RunOfThree(w, start, run);
    ThirdRequest();
  }

  lemma ExampleSteps()
    ensures var w, start, run := ExampleWorld(), Server(Index(), []), ExampleRun();
            var s1, s2 := w.Next(start, run[0]), w.Next(w.Next(start, run[0]), run[1]);
            && w.Holds(start) && w.CanHappen(start, run[0]) && w.CanHappen(s1, run[1]) && w.CanHappen(s2, run[2])
            && s2 == Server(Index(), [HeaderKV(2001, 2001), HeaderKV(4000, 4000)])
            && IntervalHashes(run[2].stop, w.interval) == [2000, 4000] && !w.Tears(start, run[0]) && w.Tears(s1, run[1])
  {
    hide Index, Short, Long, IntervalHashes, CacheAfter, Answer, LeftHalfWritten, Coherent, Tree, Indexed, Chain;
    var w, start, run := ExampleWorld(), Server(Index(), []), ExampleRun();
    ExampleIsTree();
    EmptyIsCoherent(w, Index());
    FindingNeverTears(w, start, run[0]);
    ShortHashes();
    LongHashes();
    FirstRequest();
    SecondRequest();
    assert w.Next(start, run[0]) == Server(Index(), [HeaderKV(2000, 2000), HeaderKV(4000, 4000)]);
  }

  lemma RunOfThree(w: World, s: Server, run: seq<CFCheckpointRuns.Event>)
    requires w.interval > 0 && |run| == 3 && w.CanHappen(s, run[0]) && w.CanHappen(w.Next(s, run[0]), run[1])
    requires w.CanHappen(w.Next(w.Next(s, run[0]), run[1]), run[2])
    ensures w.IsRun(s, run)
    ensures w.StateAt(s, run, 1) == w.Next(s, run[0]) && w.StateAt(s, run, 2) == w.Next(w.Next(s, run[0]), run[1])
  {
    var one, two := run[1..], run[1..][1..];
    assert one[0] == run[1] && two[0] == run[2] && two[1..] == [];
    var s1 := w.Next(s, run[0]);
    assert w.IsRun(w.Next(s1, one[0]), two);
    assert w.StateAt(s1, one, 1) == w.Next(s1, one[0]);
  }

  // ----- the same through the handler

  /** Both chains are known and validated. */
  predicate Validated(flags: Flags) { IsValid(flags, Short()) && IsValid(flags, Long()) }

  predicate IsValid(flags: Flags, n: BlockNode) { n in flags && flags[n].valid }

  lemma AreRequestable(flags: Flags)
    requires Validated(flags)
    ensures Requestable(Index(), flags, 4000) && Index()[4000] == Short()
    ensures Requestable(Index(), flags, 6001) && Index()[6001] == Long()
  {
    ExampleIsTree();
    ChainAt(false, 2000, 0);
    ChainAt(true, 3000, 0);
    hide Chain;
  }

  /** A new cache, the short chain's stop block, the long chain's, and the short chain's again.
      Growing the array for the first request leaves room for one entry more. */
  method ServesTorn(view: ChainView, flags: Flags) returns (reply: Option<seq<Hash>>)
    requires view.Valid() && Validated(flags)
    ensures reply == Some([2001, 4000]) && IntervalHashes(Index()[4000], CF_CHECKPT_INTERVAL) == [2000, 4000]
  {
    hide Index, Short, Long, IntervalHashes, CacheAfter, Reply, Validated, Requestable, Chain, Answer;
    AreRequestable(flags);
    ShortHashes();
    LongHashes();
    var cache := new CheckptCache();
    reply := cache.OnGetCFCheckpt(view, Index(), flags, 4000, FindsAll(), 1);
    FirstRequest();
    assert cache.Contents() == [HeaderKV(2000, 2000), HeaderKV(4000, 4000)] && cache.data.Length == 3;
    reply := cache.OnGetCFCheckpt(view, Index(), flags, 6001, MissesOne(), 0);
    SecondRequest();
    assert cache.Contents() == [HeaderKV(2001, 2001), HeaderKV(4000, 4000)];
    reply := cache.OnGetCFCheckpt(view, Index(), flags, 4000, FindsAll(), 0);
    ThirdRequest();
  }
}
