/** The steward tally along a reorganization, where one view serves block after block, and
    along plain runs of blocks, in terms of the blocks themselves. */
module ReorgTally {
  import opened Ledger
  import opened UtxoViews
  import opened ReorgViews
  import opened ChainStore
  import opened Elections
  import opened ElectionTally

  /** The outputs that stay unspent through the step and were last written an even number of
      steps before it. */
  function Again(steps: seq<ReorgViews.Step>, n: nat, db: Coins, u: Coins): Coins
    requires n <= |steps|
  {
    map o | o in db && o in u && Even(steps, n, o) :: db[o]
  }

  lemma AttachShows(db: Coins, v: Entries, s: ReorgViews.Step)
    requires s.Attach? && Settled(db, v) && Possible(db, v, s)
    ensures Regular(db, Changed(db, v, s)) && Shows(db, Changed(db, v, s), CoinsAfter(db, s), {})
  {
    ViewConnects(db, v, s.loaded, s.b, s.height);
  }

  /** What an attached block takes away wrongly are the outputs it creates and spends itself. */
  lemma TransientIsPassing(db: Coins, v: Entries, s: ReorgViews.Step)
    requires s.Attach? && Settled(db, v) && Possible(db, v, s)
    ensures Transient(db, Changed(db, v, s)) == Passing(db, s.b, s.height)
  {
    hide Settled, Possible, Changed, Passing;
    var x, passing := Changed(db, v, s), Passing(db, s.b, s.height);
    forall o ensures o in Transient(db, x) <==> o in passing
             ensures o in passing ==> Transient(db, x)[o] == passing[o]
    {
      PassingAt(db, v, s, o);
    }
  }

  /** What it adds wrongly are the outputs written an even number of steps before. */
  lemma RepeatedIsAgain(steps: seq<ReorgViews.Step>, n: nat, db: Coins, v: Entries)
    requires n < |steps| && steps[n].Attach? && Aged(steps, n, db, v) && Settled(db, v) && Possible(db, v, steps[n])
    ensures Repeated(db, Changed(db, v, steps[n])) == Again(steps, n, db, CoinsAfter(db, steps[n]))
  {
    AttachShows(db, v, steps[n]);
    hide Settled, Possible, Changed, CoinsAfter, Even, Aged, Shows;
    var x, u := Changed(db, v, steps[n]), CoinsAfter(db, steps[n]);
    forall o ensures o in Repeated(db, x) <==> o in Again(steps, n, db, u)
             ensures o in Repeated(db, x) ==> Repeated(db, x)[o] == db[o]
    {
      AttachAt(steps, n, db, v, o);
    }
  }

  lemma Miscounted(db: Coins, steps: seq<ReorgViews.Step>, n: nat)
    requires n < |steps| && steps[n].Attach? && Proceeds(db, steps, n + 1)
    ensures var (u, v) := At(db, steps, n);
            var s, x := steps[n], Changed(u, v, steps[n]);
            && Transient(u, x) == Passing(u, s.b, s.height)
            && Repeated(u, x) == Again(steps, n, u, CoinsAfter(u, s))
  {
    var (u, v) := At(db, steps, n);
    assert Possible(u, v, steps[n]);
    hide At, Proceeds, Changed, CoinsAfter, Passing, Possible, Again, Aged, Settled;
    TransientIsPassing(u, v, steps[n]);
    RepeatedIsAgain(steps, n, u, v);
  }

  /** By how much the kept disapproval is off, at every block a reorganization attaches. */
  lemma TallyError(votes: Votes, tip: ElectionState, db: Coins, steps: seq<ReorgViews.Step>, n: nat)
    requires n < |steps| && steps[n].Attach? && Proceeds(db, steps, n + 1)
    requires Exact(votes, tip, At(db, steps, n).0)
    ensures var (u, v) := At(db, steps, n);
            var s, w := steps[n], Opposing(votes, tip.steward);
            Kept(votes, tip, Changed(u, v, s)) ==
            Total(w, CoinsAfter(u, s)) - Total(w, Passing(u, s.b, s.height))
            + Total(w, Again(steps, n, u, CoinsAfter(u, s)))
  {
    var (u, v) := At(db, steps, n);
    assert Possible(u, v, steps[n]);
    AttachShows(u, v, steps[n]);
    Miscounted(db, steps, n);
    hide At, Proceeds, Changed, CoinsAfter, Passing, Possible, Again, Regular, Shows, Total;
    ChangesBalance(Opposing(votes, tip.steward), u, Changed(u, v, steps[n]), CoinsAfter(u, steps[n]));
  }

  /** At every block a reorganization attaches, the new election state is exact if and only if
      the opposition created and spent within the block balances the opposition that was last
      written an even number of blocks ago and is still unspent, plus, for a newly elected
      steward, the opposition to keys filed with their own. */
  lemma ReorganizationIsExactIff(votes: Votes, tip: ElectionState, db: Coins, steps: seq<ReorgViews.Step>, n: nat,
                                 es: ElectionState)
    requires n < |steps| && steps[n].Attach? && Proceeds(db, steps, n + 1)
    requires var (u, v) := At(db, steps, n);
             Exact(votes, tip, u) && Processed(votes, tip, u, Changed(u, v, steps[n]), steps[n].height, es)
    ensures var (u, v) := At(db, steps, n);
            var s, u' := steps[n], CoinsAfter(u, steps[n]);
            Exact(votes, es, u') <==>
            Balanced(votes, Keeps(votes, tip, u, Changed(u, v, s), s.height), es.steward,
                     Passing(u, s.b, s.height), Again(steps, n, u, u'), u')
  {
    var (u, v) := At(db, steps, n);
    assert Possible(u, v, steps[n]);
    AttachShows(u, v, steps[n]);
    Miscounted(db, steps, n);
    hide At, Proceeds, Changed, CoinsAfter, Passing, Possible, Again, Regular, Shows, Processed, Exact, Keeps, Balanced;
    StateIsExactIff(votes, tip, u, Changed(u, v, steps[n]), steps[n].height, es, CoinsAfter(u, steps[n]));
  }

  // ----- all blocks a reorganization attaches

  /** The n-th step attaches a block to a state t and finds the state es. */
  ghost predicate Attaches(votes: Votes, t: ElectionState, db: Coins, steps: seq<ReorgViews.Step>, n: nat,
                           es: ElectionState)
    requires n < |steps|
  {
    && Proceeds(db, steps, n + 1) && steps[n].Attach?
    && var (u, v) := At(db, steps, n);
    Processed(votes, t, u, Changed(u, v, steps[n]), steps[n].height, es)
  }

  ghost predicate ExactBefore(votes: Votes, t: ElectionState, db: Coins, steps: seq<ReorgViews.Step>, n: nat)
    requires n <= |steps|
  {
    Proceeds(db, steps, n) && Exact(votes, t, At(db, steps, n).0)
  }

  ghost predicate BalancesAt(votes: Votes, t: ElectionState, db: Coins, steps: seq<ReorgViews.Step>, n: nat,
                             es: ElectionState)
    requires n < |steps| && Attaches(votes, t, db, steps, n, es)
  {
    var (u, v) := At(db, steps, n);
    var s, u' := steps[n], CoinsAfter(u, steps[n]);
    Balanced(votes, Keeps(votes, t, u, Changed(u, v, s), s.height), es.steward,
             Passing(u, s.b, s.height), Again(steps, n, u, u'), u')
  }

  lemma AttachedIsExactIff(votes: Votes, t: ElectionState, db: Coins, steps: seq<ReorgViews.Step>, n: nat,
                           es: ElectionState)
    requires n < |steps| && ExactBefore(votes, t, db, steps, n) && Attaches(votes, t, db, steps, n, es)
    ensures ExactBefore(votes, es, db, steps, n + 1) <==> BalancesAt(votes, t, db, steps, n, es)
  {
    assert At(db, steps, n + 1).0 == CoinsAfter(At(db, steps, n).0, steps[n]);
    hide Balanced, Processed, Exact, Keeps, CoinsAfter, Changed;
    ReorganizationIsExactIff(votes, t, db, steps, n, es);
  }

  /** The state before step i: that of the fork, then those found on the way. */
  function StateAt(fork: ElectionState, states: seq<ElectionState>, a: nat, i: nat): ElectionState
    requires a <= i <= |states|
  {
    if i == a then fork else states[i - 1]
  }

  /** Over the attached blocks of every reorganization, from an exact state at the fork: the
      tally agrees with a recount after each block up to the n-th if and only if each of them
      balances. */
  lemma {:induction false} AttachedRunIsExactIff(votes: Votes, fork: ElectionState, db: Coins,
                                                 steps: seq<ReorgViews.Step>, states: seq<ElectionState>, a: nat,
                                                 n: nat)
    requires a <= n <= |steps| == |states| && ExactBefore(votes, fork, db, steps, a)
    requires forall i :: a <= i < n ==> Attaches(votes, StateAt(fork, states, a, i), db, steps, i, states[i])
    ensures (forall i :: a <= i <= n ==> ExactBefore(votes, StateAt(fork, states, a, i), db, steps, i))
       <==> (forall i :: a <= i < n ==> BalancesAt(votes, StateAt(fork, states, a, i), db, steps, i, states[i]))
    decreases n
  {
    hide ExactBefore, Attaches, BalancesAt;
    if n > a {
      AttachedRunIsExactIff(votes, fork, db, steps, states, a, n - 1);
      var t := StateAt(fork, states, a, n - 1);
      if ExactBefore(votes, t, db, steps, n - 1) {
        assert Attaches(votes, t, db, steps, n - 1, states[n - 1]);
        AttachedIsExactIff(votes, t, db, steps, n - 1, states[n - 1]);
        assert StateAt(fork, states, a, n) == states[n - 1];
      }
    }
  }

  // ----- blocks that extend the tip, each through a view of its own

  datatype Extension = Extension(b: Block, height: nat, loaded: Entries, es: ElectionState) {
    function Step(): ReorgViews.Step { Attach(b, height, loaded) }
  }

  function CoinsBefore(db: Coins, blocks: seq<Extension>, i: nat): Coins
    requires i <= |blocks|
  {
    if i == 0 then db else Connect(CoinsBefore(db, blocks, i - 1), blocks[i - 1].b, blocks[i - 1].height)
  }

  function StateBefore(tip: ElectionState, blocks: seq<Extension>, i: nat): ElectionState
    requires i <= |blocks|
  {
    if i == 0 then tip else blocks[i - 1].es
  }

  ghost predicate Extends(votes: Votes, tip: ElectionState, db: Coins, x: Extension) {
    Possible(db, map[], x.Step()) && Processed(votes, tip, db, Changed(db, map[], x.Step()), x.height, x.es)
  }

  /** The new state is found by keeping the steward, and votes in passing do not weigh in; or
      by an election, and they make up for the votes against keys filed with the winner's. */
  ghost predicate BlockBalances(votes: Votes, tip: ElectionState, db: Coins, x: Extension)
    requires Extends(votes, tip, db, x)
  {
    Balanced(votes, Keeps(votes, tip, db, Changed(db, map[], x.Step()), x.height), x.es.steward,
             Passing(db, x.b, x.height), map[], Connect(db, x.b, x.height))
  }

  lemma NothingAgain(db: Coins, s: ReorgViews.Step)
    requires s.Attach? && Possible(db, map[], s)
    ensures Repeated(db, Changed(db, map[], s)) == map[]
  {
    hide ConnectedBlock, CanConnect, FreshIds, Connect, Shows, Fetched, Regular;
    ViewConnects(db, map[], s.loaded, s.b, s.height);
    NewViewIsPlain(db, s.loaded, s.b, s.height);
  }

  lemma BlockIsExactIff(votes: Votes, tip: ElectionState, db: Coins, x: Extension)
    requires Exact(votes, tip, db) && Extends(votes, tip, db, x)
    ensures Exact(votes, x.es, Connect(db, x.b, x.height)) <==> BlockBalances(votes, tip, db, x)
  {
    hide Processed, Exact, Keeps, Balanced, Connect, Passing, Changed, Possible;
    var v := Changed(db, map[], x.Step());
    NothingAgain(db, x.Step());
    AttachShows(db, map[], x.Step());
    TransientIsPassing(db, map[], x.Step());
    StateIsExactIff(votes, tip, db, v, x.height, x.es, Connect(db, x.b, x.height));
  }

  ghost predicate IsBlockRun(votes: Votes, tip: ElectionState, db: Coins, blocks: seq<Extension>) {
    forall i :: 0 <= i < |blocks| ==> Extends(votes, StateBefore(tip, blocks, i), CoinsBefore(db, blocks, i), blocks[i])
  }

  ghost predicate ExactAfter(votes: Votes, tip: ElectionState, db: Coins, blocks: seq<Extension>, n: nat)
    requires n <= |blocks|
  {
    forall i :: 0 <= i <= n ==> Exact(votes, StateBefore(tip, blocks, i), CoinsBefore(db, blocks, i))
  }

  ghost predicate BlocksBalance(votes: Votes, tip: ElectionState, db: Coins, blocks: seq<Extension>, n: nat)
    requires n <= |blocks| && IsBlockRun(votes, tip, db, blocks)
  {
    forall i :: 0 <= i < n ==> BlockBalances(votes, StateBefore(tip, blocks, i), CoinsBefore(db, blocks, i), blocks[i])
  }

  /** Over every run of blocks that extend the tip, the kept tally agrees with a recount after
      each of the first n blocks if and only if each of them balances. */
  lemma {:induction false} BlockRunIsExactIff(votes: Votes, tip: ElectionState, db: Coins, blocks: seq<Extension>,
                                              n: nat)
    requires Exact(votes, tip, db) && IsBlockRun(votes, tip, db, blocks) && n <= |blocks|
    ensures ExactAfter(votes, tip, db, blocks, n) <==> BlocksBalance(votes, tip, db, blocks, n)
  {
    hide Exact, Extends, BlockBalances, Connect;
    if n > 0 {
      BlockRunIsExactIff(votes, tip, db, blocks, n - 1);
      if ExactAfter(votes, tip, db, blocks, n - 1) {
        var t, u := StateBefore(tip, blocks, n - 1), CoinsBefore(db, blocks, n - 1);
        assert Exact(votes, t, u) && Extends(votes, t, u, blocks[n - 1]);
        BlockIsExactIff(votes, t, u, blocks[n - 1]);
        assert Exact(votes, StateBefore(tip, blocks, n), CoinsBefore(db, blocks, n)) <==>
               BlockBalances(votes, t, u, blocks[n - 1]);
      }
    }
  }
}
