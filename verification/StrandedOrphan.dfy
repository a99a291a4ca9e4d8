/** A run after which the orphan pool keeps a block that could be adopted. */
module StrandedOrphans {
  import opened Options
  import opened Ledger
  import opened BlockTree
  import opened ChainRules
  import opened ChainSafety
  import opened ChainStore
  import opened OrphanPools
  import opened BlockChains

  // Block 2 follows genesis, blocks 3 and 4 follow block 2, block 5 follows genesis.

  function BlockOf(): Hash -> Block {
    (h: Hash) => EmptyBlock(h, if h == 3 || h == 4 then 2 else if h == 1 then 0 else 1)
  }

  lemma BlockFacts(h: Hash)
    ensures BlockOf()(h) == EmptyBlock(h, if h == 3 || h == 4 then 2 else if h == 1 then 0 else 1)
    ensures BlockOf()(BlockOf()(h).hash) == BlockOf()(h)
  {
  }

  function Node2(): BlockNode { Child(Genesis(EmptyBlock(1, 0)), EmptyBlock(2, 1)) }

  /** Only block 2 passes the full check. */
  function Connects(): BlockNode -> Verdict { n => if n == Node2() then Accept else Reject }

  /** Checking blocks 3 and 4 in context fails for an internal reason. */
  function Contexts(): Block -> Verdict { (b: Block) => if b.hash == 3 || b.hash == 4 then Fault else Accept }

  function Elects(): BlockNode -> ElectionState { _ => ElectionState([], 0) }

  lemma ConnectsIsHonest()
    ensures Honest(Connects())
  {
    assert UtxosOf(Genesis(EmptyBlock(1, 0))) == map[];
    assert Connectable(Node2());
  }

  function Start(): Core { Initial(EmptyBlock(1, 0)) }

  function OfferOf(h: Hash): Event { Event(BlockOf()(h), None, false, Contexts()(BlockOf()(h)), Connects()) }

  /** The state once block 2 is the tip. */
  function Second(): Core {
    Core(map[1 := Genesis(EmptyBlock(1, 0)), 2 := Node2()],
         map[Genesis(EmptyBlock(1, 0)) := DATA_STORED.Or(VALID), Node2() := DATA_STORED.Or(VALID)], Node2())
  }

  lemma SecondIsNext()
    ensures Sound(Start()) && Offer(Start(), OfferOf(2)) == (Second(), Accepted(true))
  {
    hide Sound, Connectable, Reorganize;
    InitialIsSound(EmptyBlock(1, 0));
    var c := Start();
    assert MaybeAccept(c, OfferOf(2)).0.index == Second().index;
    assert MaybeAccept(c, OfferOf(2)).0.flags == Second().flags;
  }

  lemma SecondIsSound()
    ensures Sound(Second())
  {
    ConnectsIsHonest();
    SecondIsNext();
    OfferKeeps(Start(), OfferOf(2));
  }

  lemma OrphanFaults(h: Hash)
    requires h == 3 || h == 4
    ensures Sound(Second()) && Offer(Second(), OfferOf(h)) == (Second(), Faulted)
  {
    SecondIsSound();
    var e := OfferOf(h);
    assert e.block == EmptyBlock(h, 2) && e.context == Fault && e.block.hash !in Second().index;
    assert Second().index[2] == Node2() && !Second().flags[Node2()].KnownInvalid();
  }

  lemma FifthIsAccepted()
    ensures Sound(Second()) && Offer(Second(), OfferOf(5)).1 == Accepted(false)
    ensures var c := Offer(Second(), OfferOf(5)).0;
            2 in c.index && c.index[2] == Node2() && Node2() in c.flags && !c.flags[Node2()].KnownInvalid()
  {
    SecondIsSound();
    var g := Genesis(EmptyBlock(1, 0));
    var n := Child(g, EmptyBlock(5, 1));
    assert WorkSum(n) == WorkSum(Node2());
    assert n.parent != Second().tip;
  }

  // ----- the calls

  /** The pool holds exactly blocks 3 and 4. */
  predicate HoldsBoth(orphans: map<Hash, Orphan>) {
    orphans.Keys == {3, 4} && forall h :: h in orphans ==> orphans[h].block == BlockOf()(h) && orphans[h].height == None
  }

  lemma OffersAre(orphans: map<Hash, Orphan>, h: Hash)
    requires HoldsBoth(orphans) && h in orphans
    ensures EventOf(orphans[h], false, Contexts(), Connects()) == OfferOf(h)
  {
  }

  /** Adopting after block 2 faults at the first orphan tried, whichever it is. */
  lemma FirstOrphanFaults(before: map<Hash, Orphan>, after: map<Hash, Orphan>, events: seq<Event>, faulted: bool)
    requires HoldsBoth(before) && events != [] && events[0] == OfferOf(2) && FaultsLast(Start(), events, faulted)
    requires Adopted(before, after, events[..1], events, false, Contexts(), Connects())
    requires !faulted ==> forall h :: h in after ==>
             Waiting(Run(Start(), events).index, Run(Start(), events).flags, 2, [])
    ensures faulted && Run(Start(), events) == Second()
    ensures exists h :: h in after && (h == 3 || h == 4) && after[h] == before[h]
  {
    hide Sound, Offer, MaybeAccept, NeverFaults, Start, Second, BlockOf, Contexts, Connects;
    ConnectsIsHonest();
    SecondIsNext();
    RunOne(Start(), events[0]);
    assert events[..1] == [events[0]];
    if |events| == 1 {
      OneEvent(before, after, events, faulted);
    } else {
      SecondEventFaults(before, after, events);
      StopsAtFault(Start(), events, faulted, 1);
      RunExtends(Start(), events[..1], events[1]);
      assert events[..1] + [events[1]] == events;
      OneIsLeft(before, after, events);
    }
  }

  /** The call cannot end with block 2 alone. */
  lemma OneEvent(before: map<Hash, Orphan>, after: map<Hash, Orphan>, events: seq<Event>, faulted: bool)
    requires HoldsBoth(before) && |events| == 1 && events[0] == OfferOf(2) && FaultsLast(Start(), events, faulted)
    requires Adopted(before, after, events[..1], events, false, Contexts(), Connects())
    requires Run(Start(), events) == Second()
    ensures !faulted && 3 in after && !Waiting(Second().index, Second().flags, 2, [])
  {
    SecondIsNext();
    assert events[..0] == [];
  }

  lemma OneIsLeft(before: map<Hash, Orphan>, after: map<Hash, Orphan>, events: seq<Event>)
    requires HoldsBoth(before) && |events| == 2
    requires Adopted(before, after, events[..1], events, false, Contexts(), Connects())
    ensures exists h :: h in after && (h == 3 || h == 4) && after[h] == before[h]
  {
    var h := events[1].block.hash;
    assert h in before && h !in after;
    var other := if h == 3 then 4 else 3;
    assert other in before && other in after;
  }

  lemma SecondEventFaults(before: map<Hash, Orphan>, after: map<Hash, Orphan>, events: seq<Event>)
    requires HoldsBoth(before) && |events| > 1
    requires Adopted(before, after, events[..1], events, false, Contexts(), Connects())
    ensures Sound(Second()) && Offer(Second(), events[1]) == (Second(), Faulted)
  {
    var h := events[1].block.hash;
    assert h in before;
    OffersAre(before, h);
    OrphanFaults(h);
  }

  /** Offering block 5 afterwards ends without a fault and adopts nothing. */
  lemma FifthAdoptsNothing(before: map<Hash, Orphan>, after: map<Hash, Orphan>, events: seq<Event>, faulted: bool)
    requires Sound(Second()) && FaultsLast(Second(), events, faulted) && Rooted(events)
    requires events != [] && events[0] == OfferOf(5)
    requires Adopted(before, after, events[..1], events, false, Contexts(), Connects())
    requires forall h :: h in before ==> before[h].block.prev == 2 && before[h].block.hash == h
    ensures !faulted && after == before && Run(Second(), events) == Offer(Second(), OfferOf(5)).0
  {
    hide Sound, Offer, MaybeAccept, NeverFaults, Second, Contexts, Connects;
    ConnectsIsHonest();
    FifthIsAccepted();
    RunOne(Second(), events[0]);
    BlockFacts(5);
    assert events[..1] == [events[0]] && events[0].block.hash == 5;
    assert events == [events[0]];
    assert after == before;
  }

  /** The chain object between two calls, with a given index, flags and tip. */
  ghost predicate IsAt(chain: BlockChain, c: Core, left: seq<Hash>)
    reads chain, chain.bestChain, chain.bestChain.nodes, chain.pool
  {
    && chain.Valid() && chain.dirty == {} && chain.PoolValid() && chain.NoneAdoptable(left)
    && chain.CoreOf() == c && chain.pool.blockOf == BlockOf()
  }

  /** An orphan joins a small pool. */
  method Pool(chain: BlockChain, h: Hash)
    requires IsAt(chain, Start(), []) && (h == 3 || h == 4) && h !in chain.pool.orphans && |chain.pool.orphans| <= 1
    requires forall k :: k in chain.pool.orphans ==> chain.pool.orphans[k].expiration >= 0
    modifies chain, chain.bestChain, chain.bestChain.nodes, chain.pool
    ensures IsAt(chain, Start(), [])
            && (chain.bestChain.nodes == old(chain.bestChain.nodes) || fresh(chain.bestChain.nodes))
    ensures chain.pool.orphans == old(chain.pool.orphans)[h := Orphan(BlockOf()(h), None, ORPHAN_LIFETIME)]
  {
    ConnectsIsHonest();
    BlockFacts(h);
    StartIndex();
    hide BlockChain.Valid, BlockChain.PoolValid, BlockChain.Best, BlockChain.NoneAdoptable, Adopted, FaultsLast,
         Rooted, Honest;
    hide Sound, MaybeAccept, Start, BlockOf, BlockChain.Stored;
    ghost var before := chain.pool.orphans;
    assert Unexpired(before, 0) == before;
    var outcome, isOrphan;
    ghost var events, left;
    outcome, isOrphan, events, left :=
      chain.ProcessBlock(BlockOf()(h), None, false, Accept, Contexts(), Connects(), Elects(), 0, []);
    assert isOrphan && events == [];
  }

  /** What processing a block with a known parent did. */
  ghost predicate Did(before: map<Hash, Orphan>, after: map<Hash, Orphan>, c: Core, h: Hash, events: seq<Event>,
                      outcome: Outcome) {
    && events != [] && events[0] == OfferOf(h) && FaultsLast(c, events, outcome.Faulted?) && Rooted(events)
    && Adopted(before, after, events[..1], events, false, Contexts(), Connects())
    && Tree(c.index, Root(c.tip)) && (outcome.Faulted? || outcome == MaybeAccept(c, OfferOf(h)).1)
  }

  /** Processes a new block whose parent is known and which is accepted. */
  method Process(chain: BlockChain, h: Hash, ghost c: Core, ghost left: seq<Hash>)
    returns (outcome: Outcome, ghost events: seq<Event>, ghost left': seq<Hash>)
    requires IsAt(chain, c, left) && h !in c.index && h !in chain.pool.orphans && BlockOf()(h).prev in c.index
    requires Tree(c.index, Root(c.tip)) && MaybeAccept(c, OfferOf(h)).1.Accepted?
    modifies chain, chain.bestChain, chain.bestChain.nodes, chain.pool
    ensures chain.bestChain.nodes == old(chain.bestChain.nodes) || fresh(chain.bestChain.nodes)
    ensures Did(old(chain.pool.orphans), chain.pool.orphans, c, h, events, outcome)
    ensures IsAt(chain, Run(c, events), left') && (!outcome.Faulted? ==> left' == left)
  {
    ConnectsIsHonest();
    BlockFacts(h);
    hide BlockChain.Valid, BlockChain.PoolValid, BlockChain.Best, Adopted, FaultsLast, Rooted, Honest,
         BlockChain.NoneAdoptable;
    hide Sound, MaybeAccept, BlockOf, BlockChain.Stored, Contexts, Connects, Tree;
    var isOrphan;
    outcome, isOrphan, events, left' :=
      chain.ProcessBlock(BlockOf()(h), None, false, Accept, Contexts(), Connects(), Elects(), 0, left);
  }

  /** Block 2 is accepted, and the first orphan tried faults. */
  method Adopt(chain: BlockChain) returns (ghost left: seq<Hash>)
    requires IsAt(chain, Start(), []) && HoldsBoth(chain.pool.orphans)
    modifies chain, chain.bestChain, chain.bestChain.nodes, chain.pool
    ensures IsAt(chain, Second(), left)
    ensures chain.bestChain.nodes == old(chain.bestChain.nodes) || fresh(chain.bestChain.nodes)
    ensures exists h :: h in chain.pool.orphans && (h == 3 || h == 4)
    ensures forall h :: h in chain.pool.orphans ==> h in old(chain.pool.orphans)
                                                     && chain.pool.orphans[h] == old(chain.pool.orphans)[h]
  {
    hide BlockChain.Valid, BlockChain.PoolValid, FaultsLast, Rooted, MaybeAccept, Start, Second, BlockOf, OfferOf;
    hide Contexts, Connects, Tree, HasFailed, Connectable, AllValid;
    BlockFacts(2);
    StartIndex();
    FirstOutcome();
    ghost var before := chain.pool.orphans;
    var outcome;
    ghost var events;
    outcome, events, left := Process(chain, 2, Start(), []);
    ghost var after := chain.pool.orphans;
    if !outcome.Faulted? { WaitsForSecond(before, after, chain.index, chain.flags); }
    FirstOrphanFaults(before, after, events, outcome.Faulted?);
  }

  lemma WaitsForSecond(before: map<Hash, Orphan>, after: map<Hash, Orphan>, index: map<Hash, BlockNode>, flags: Flags)
    requires HoldsBoth(before) && forall h :: h in after ==> h in before && after[h] == before[h]
    requires forall h :: h in after ==> Waiting(index, flags, after[h].block.prev, [])
    ensures forall h :: h in after ==> Waiting(index, flags, 2, [])
  {
    BlockFacts(3);
    BlockFacts(4);
  }

  lemma FirstOutcome()
    ensures Sound(Start()) && MaybeAccept(Start(), OfferOf(2)).1 == Accepted(true)
  {
    SecondIsNext();
  }

  /** Block 5 is processed, and nothing is adopted. */
  method Unrelated(chain: BlockChain, ghost left: seq<Hash>) returns (outcome: Outcome)
    requires IsAt(chain, Second(), left)
    requires forall h :: h in chain.pool.orphans ==> chain.pool.orphans[h].block == BlockOf()(h) && (h == 3 || h == 4)
    modifies chain, chain.bestChain, chain.bestChain.nodes, chain.pool
    ensures chain.Valid() && chain.PoolValid() && outcome == Accepted(false)
    ensures chain.pool.orphans == old(chain.pool.orphans)
    ensures 2 in chain.index && chain.index[2] in chain.flags && !chain.flags[chain.index[2]].KnownInvalid()
  {
    hide BlockChain.Valid, BlockChain.PoolValid, BlockChain.NoneAdoptable, FaultsLast, Rooted, MaybeAccept, Offer;
    hide Second, BlockOf, Contexts, Connects, Tree, Adopted, OfferOf, HasFailed, Connectable, AllValid;
    BlockFacts(5);
    BlockFacts(3);
    BlockFacts(4);
    SecondIndex();
    FifthOutcome();
    ghost var before := chain.pool.orphans;
    ghost var events, left';
    outcome, events, left' := Process(chain, 5, Second(), left);
    FifthAdoptsNothing(before, chain.pool.orphans, events, outcome.Faulted?);
  }

  lemma FifthOutcome()
    ensures Sound(Second()) && MaybeAccept(Second(), OfferOf(5)).1 == Accepted(false)
    ensures var c := Offer(Second(), OfferOf(5)).0;
            2 in c.index && c.index[2] in c.flags && !c.flags[c.index[2]].KnownInvalid()
  {
    FifthIsAccepted();
    SecondIndex();
    BlockFacts(5);
  }

  lemma SecondIndex()
    ensures Second().index.Keys == {1, 2}
  {
  }

  lemma StartIndex()
    ensures Start().index.Keys == {1}
  {
  }

  /** Blocks 3 and 4 arrive first and are pooled.  Block 2 arrives, one of them is taken out and
      checking it fails for an internal reason, so the other is not looked at.  Block 5 is then
      processed without any fault, and the other orphan is still in the pool although its
      parent is on the best chain. */
  method OrphanStaysBehind() returns (chain: BlockChain, outcome: Outcome)
    ensures chain.Valid() && chain.PoolValid() && outcome == Accepted(false) && !chain.NoneAdoptable([])
  {
    hide Start, Second, BlockOf, Contexts, Connects, BlockChain.Valid, BlockChain.PoolValid, IsAt, Unexpired;
    BlockFacts(3);
    BlockFacts(4);
    chain := Begin();
    Pool(chain, 3);
    Pool(chain, 4);
    ghost var left := Adopt(chain);
    outcome := Unrelated(chain, left);
  }

  method Begin() returns (chain: BlockChain)
    ensures IsAt(chain, Start(), []) && chain.pool.orphans == map[]
    ensures fresh(chain) && fresh(chain.bestChain) && fresh(chain.bestChain.nodes) && fresh(chain.pool)
  {
    hide Start, BlockOf, BlockChain.Valid, BlockChain.PoolValid, Initial, MostWork;
    BlockFacts(1);
    StartIs();
    chain := new BlockChain(BlockOf()(1), [], BlockOf());
  }

  lemma StartIs()
    ensures Start() == Initial(BlockOf()(1))
  {
  }
}
