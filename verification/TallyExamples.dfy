/** Blocks for which the kept disapproval is not the recount. */
module TallyExamples {
  import opened Options
  import BlockTree
  import ChainRules
  import opened Ledger
  import opened UtxoViews
  import opened ReorgViews
  import opened ChainStore
  import opened Elections
  import opened ElectionTally
  import opened ReorgTally

  type Script = seq<Byte>

  /** A coinbase with one output that does not vote. */
  function Base(id: Hash, plain: Script): Tx { Tx(id, [], [TxOut(1, plain, true)]) }

  /** Moves the amount of one output to a new one. */
  function Pay(id: Hash, from: OutPoint, amount: nat, script: Script): Tx {
    Tx(id, [from], [TxOut(amount, script, true)])
  }

  lemma OneOutput(tx: Tx, height: nat, isCoinBase: bool)
    requires |tx.outputs| == 1 && tx.outputs[0].spendable
    ensures Created(tx, height, isCoinBase) ==
            map[OutPoint(tx.id, 0) := Coin(tx.outputs[0].amount, tx.outputs[0].script, height, isCoinBase)]
  {
  }

  const OLD := OutPoint(1, 0)
  const VOTE := OutPoint(3, 0)

  /** The height at which a coinbase output of block 1 can be spent. */
  const HEIGHT := 102

  /** One stored output that does not vote. */
  function Start(plain: Script, x: nat): Coins { map[OLD := Coin(x, plain, 1, true)] }

  /** A chain whose block 1 pays x in its coinbase, followed by blocks that pay nothing. */
  function Mature(plain: Script, x: nat, k: nat): BlockTree.BlockNode {
    if k == 0 then BlockTree.Genesis(EmptyBlock(1000, 0))
    else
      BlockTree.Child(
        Mature(plain, x, k - 1),
        if k == 1 then Block(1001, 1000, 0, Tx(1, [], [TxOut(x, plain, true)]), []) else EmptyBlock(1000 + k, 999 + k))
  }

  /** The examples start from what is unspent on such a chain once that coinbase is mature. */
  lemma {:induction false} StartIsReached(plain: Script, x: nat, k: nat)
    ensures BlockTree.Height(Mature(plain, x, k)) == k
    ensures ChainRules.UtxosOf(Mature(plain, x, k)) == if k == 0 then map[] else Start(plain, x)
    ensures k > 0 ==> ChainRules.Connectable(Mature(plain, x, k))
  {
    if k > 0 {
      StartIsReached(plain, x, k - 1);
      if k == 1 { OneOutput(Mature(plain, x, 1).block.coinbase, 1, true); }
    }
  }

  /** The first transaction of a block turns it into a vote. */
  function VotingBlock(plain: Script, no: Script, x: nat, more: seq<Tx>): Block {
    Block(1102, 1101, 0, Base(2, plain), [Pay(3, OLD, x, no)] + more)
  }

  lemma VoteConnects(plain: Script, no: Script, x: nat)
    ensures var u := Start(plain, x) + Created(Base(2, plain), HEIGHT, true);
            && Start(plain, x).Keys !! Created(Base(2, plain), HEIGHT, true).Keys
            && CanConnectTx(u, Pay(3, OLD, x, no), HEIGHT)
            && ConnectTx(u, Pay(3, OLD, x, no), HEIGHT) ==
               map[OutPoint(2, 0) := Coin(1, plain, HEIGHT, true), VOTE := Coin(x, no, HEIGHT, false)]
  {
    OneOutput(Base(2, plain), HEIGHT, true);
    OneOutput(Pay(3, OLD, x, no), HEIGHT, false);
    var u := Start(plain, x) + Created(Base(2, plain), HEIGHT, true);
    assert Spend(u, [OLD]) == u - {OLD};
    assert CanSpend(u, [OLD]);
  }

  // ----- created and spent in passing

  function RevokingBlock(plain: Script, no: Script, x: nat): Block {
    VotingBlock(plain, no, x, [Pay(4, VOTE, x, plain)])
  }

  function RevokingStep(plain: Script, no: Script, x: nat): ReorgViews.Step {
    Attach(RevokingBlock(plain, no, x), HEIGHT,
           map[OLD := Some(Entry(Coin(x, plain, 1, true), false, false)),
               VOTE := Some(Entry(Coin(x, no, HEIGHT, false), false, true))])
  }

  lemma RevokingConnects(plain: Script, no: Script, x: nat)
    ensures var b := RevokingBlock(plain, no, x);
            && CanConnect(Start(plain, x), b, HEIGHT)
            && Connect(Start(plain, x), b, HEIGHT) ==
               map[OutPoint(2, 0) := Coin(1, plain, HEIGHT, true), OutPoint(4, 0) := Coin(x, plain, HEIGHT, false)]
  {
    VoteConnects(plain, no, x);
    OneOutput(Pay(4, VOTE, x, plain), HEIGHT, false);
    var b := RevokingBlock(plain, no, x);
    var u := ConnectTx(Start(plain, x) + Created(Base(2, plain), HEIGHT, true), b.txs[0], HEIGHT);
    assert b.txs[1..] == [Pay(4, VOTE, x, plain)] && b.txs[1..][1..] == [];
    assert Spend(u, [VOTE]) == u - {VOTE} && CanSpend(u, [VOTE]);
    hide Created;
    assert CanConnectTx(u, b.txs[1], HEIGHT) && CanConnectTxs(u, b.txs[1..], HEIGHT);
    assert ConnectTxs(u, b.txs[1..], HEIGHT) == ConnectTx(u, b.txs[1], HEIGHT);
  }

  lemma RevokingIsPossible(plain: Script, no: Script, x: nat)
    ensures Possible(Start(plain, x), map[], RevokingStep(plain, no, x))
  {
    var s, db := RevokingStep(plain, no, x), Start(plain, x);
    RevokingConnects(plain, no, x);
    OneOutput(Pay(3, OLD, x, no), HEIGHT, false);
    assert Transactions(s.b) == [Base(2, plain), Pay(3, OLD, x, no), Pay(4, VOTE, x, plain)];
    ThreeIds(Transactions(s.b));
    hide CanConnect, Connect, Created, Ids, DistinctIds;
    assert s.b.txs == [Pay(3, OLD, x, no), Pay(4, VOTE, x, plain)];
    assert OLD in s.b.txs[0].inputs && Spends(s.b.txs, OLD);
    assert Transactions(s.b)[1] == Pay(3, OLD, x, no);
    assert IsNewOutput(s.b, HEIGHT, VOTE, s.loaded[VOTE]);
  }

  lemma ThreeIds(txs: seq<Tx>)
    requires |txs| == 3
    ensures Ids(txs) == {txs[0].id, txs[1].id, txs[2].id}
    ensures DistinctIds(txs) <==> txs[0].id != txs[1].id && txs[0].id != txs[2].id && txs[1].id != txs[2].id
  {
    TwoIds(txs[1..]);
  }

  lemma TwoIds(txs: seq<Tx>)
    requires |txs| == 2
    ensures Ids(txs) == {txs[0].id, txs[1].id} && (DistinctIds(txs) <==> txs[0].id != txs[1].id)
  {
    var last := txs[1..];
    assert last[1..] == [] && last[0] == txs[1];
    assert Ids(last) == {txs[1].id} && DistinctIds(last);
  }

  lemma RevokingPasses(plain: Script, no: Script, x: nat)
    ensures Passing(Start(plain, x), RevokingBlock(plain, no, x), HEIGHT) == map[VOTE := Coin(x, no, HEIGHT, false)]
  {
    var b := RevokingBlock(plain, no, x);
    RevokingConnects(plain, no, x);
    OneOutput(Base(2, plain), HEIGHT, true);
    OneOutput(Pay(3, OLD, x, no), HEIGHT, false);
    OneOutput(Pay(4, VOTE, x, plain), HEIGHT, false);
    hide Created, Connect, CanConnect;
    assert b.txs[1..] == [Pay(4, VOTE, x, plain)] && b.txs[1..][1..] == [];
    assert CreatedByTxs(b.txs[1..], HEIGHT) == Created(b.txs[1], HEIGHT, false);
    assert CreatedByTxs(b.txs, HEIGHT) == Created(b.txs[0], HEIGHT, false) + Created(b.txs[1], HEIGHT, false);
  }

  /** The block can be attached to a state whose disapproval is exact.  After it `kept` is the
      disapproval kept and `recount` the opposition there is. */
  ghost predicate Tallies(votes: Votes, tip: ElectionState, db: Coins, s: ReorgViews.Step, kept: int, recount: int) {
    && Possible(db, map[], s) && s.Attach? && Exact(votes, tip, db)
    && Kept(votes, tip, Changed(db, map[], s)) == kept
    && Total(Opposing(votes, tip.steward), CoinsAfter(db, s)) == recount
  }

  /** A block turns an output into a vote against the steward and back.  Nobody opposes the
      steward before it or after it, and the kept disapproval becomes negative. */
  lemma PassingVoteIsSubtracted(votes: Votes, steward: Key, plain: Script, no: Script, x: nat)
    requires votes(no).opposes == Some(steward) && votes(plain).opposes == None
    ensures Tallies(votes, ElectionState(steward, 0), Start(plain, x), RevokingStep(plain, no, x), 0 - x as int, 0)
  {
    hide Possible, Total, Start, RevokingStep, Passing, CoinsAfter, Tallies;
    RevokingIsPossible(plain, no, x);
    RevokingIsWorth(votes, steward, plain, no, x);
    FirstTally(votes, ElectionState(steward, 0), Start(plain, x), RevokingStep(plain, no, x));
  }

  lemma RevokingIsWorth(votes: Votes, steward: Key, plain: Script, no: Script, x: nat)
    requires votes(no).opposes == Some(steward) && votes(plain).opposes == None
    ensures var db, s, w := Start(plain, x), RevokingStep(plain, no, x), Opposing(votes, steward);
            && Total(w, db) == 0 && Total(w, CoinsAfter(db, s)) == 0
            && s.Attach? && Total(w, Passing(db, s.b, s.height)) == x
  {
    RevokingConnects(plain, no, x);
    RevokingPasses(plain, no, x);
    hide Connect, Passing, Total, RevokingBlock, CanConnect;
    var db, s, w := Start(plain, x), RevokingStep(plain, no, x), Opposing(votes, steward);
    NoCoinsNoWorth(w, db);
    NoCoinsNoWorth(w, CoinsAfter(db, s));
    OneCoin(w, VOTE, Coin(x, no, HEIGHT, false));
  }

  lemma FirstTally(votes: Votes, tip: ElectionState, db: Coins, s: ReorgViews.Step)
    requires s.Attach? && Possible(db, map[], s) && Exact(votes, tip, db)
    ensures var w := Opposing(votes, tip.steward);
            var recount := Total(w, CoinsAfter(db, s));
            Tallies(votes, tip, db, s, recount - Total(w, Passing(db, s.b, s.height)), recount)
  {
    hide Possible, Changed, Passing, Total, Exact, CoinsAfter;
    StartOfRun(db, s);
    TallyError(votes, tip, db, [s], 0);
    NoneEven([s], 0, db, CoinsAfter(db, s));
    NoCoinsNoWorth(Opposing(votes, tip.steward), map[]);
  }

  lemma OneCoin(w: Weight, o: OutPoint, c: Coin)
    ensures Total(w, map[o := c]) == w(c)
  {
    var u: Coins := map[o := c];
    SumSplit(u.Keys, o, StoredWorth(w, u));
    assert u.Keys - {o} == {};
  }

  lemma StartOfRun(db: Coins, s: ReorgViews.Step)
    requires Possible(db, map[], s)
    ensures Proceeds(db, [s], 1) && At(db, [s], 0) == (db, map[])
  {
    assert Proceeds(db, [s], 0);
  }

  /** Nothing has been written two steps ago at the first two steps. */
  lemma NoneEven(steps: seq<ReorgViews.Step>, n: nat, db: Coins, u: Coins)
    requires n <= |steps| && n < 2
    ensures Again(steps, n, db, u) == map[]
  {
    hide Writes;
  }

  // ----- counted again two blocks later

  function VotingStep(plain: Script, no: Script, x: nat): ReorgViews.Step {
    Attach(VotingBlock(plain, no, x, []), HEIGHT, map[OLD := Some(Entry(Coin(x, plain, 1, true), false, false))])
  }

  function Voted(plain: Script, no: Script, x: nat): Coins {
    map[OutPoint(2, 0) := Coin(1, plain, HEIGHT, true), VOTE := Coin(x, no, HEIGHT, false)]
  }

  lemma VotingConnects(plain: Script, no: Script, x: nat)
    ensures var b := VotingBlock(plain, no, x, []);
            && CanConnect(Start(plain, x), b, HEIGHT) && Connect(Start(plain, x), b, HEIGHT) == Voted(plain, no, x)
            && CreatedByBlock(b, HEIGHT) == Voted(plain, no, x)
  {
    VoteConnects(plain, no, x);
    OneOutput(Base(2, plain), HEIGHT, true);
    OneOutput(Pay(3, OLD, x, no), HEIGHT, false);
    var b := VotingBlock(plain, no, x, []);
    var u := Start(plain, x) + Created(Base(2, plain), HEIGHT, true);
    assert b.txs[0] == Pay(3, OLD, x, no) && b.txs[1..] == [];
    hide Created, CanConnectTx, ConnectTx;
    assert CanConnectTxs(u, b.txs, HEIGHT);
    assert ConnectTxs(u, b.txs, HEIGHT) == ConnectTx(u, b.txs[0], HEIGHT);
    assert CreatedByTxs(b.txs, HEIGHT) == Created(b.txs[0], HEIGHT, false);
  }

  lemma VotingIsPossible(plain: Script, no: Script, x: nat)
    ensures Possible(Start(plain, x), map[], VotingStep(plain, no, x))
    ensures CoinsAfter(Start(plain, x), VotingStep(plain, no, x)) == Voted(plain, no, x)
  {
    var s := VotingStep(plain, no, x);
    VotingConnects(plain, no, x);
    assert s.b.txs[0] == Pay(3, OLD, x, no);
    assert Transactions(s.b) == [Base(2, plain), Pay(3, OLD, x, no)];
    TwoIds(Transactions(s.b));
    hide CanConnect, Connect, Ids, DistinctIds, CreatedByBlock;
    assert OLD in s.b.txs[0].inputs && Spends(s.b.txs, OLD);
  }

  /** A block with nothing but a coinbase. */
  function QuietStep(id: Hash, plain: Script, height: nat, v: Entries): ReorgViews.Step {
    Attach(Block(id + 1098, id + 1097, 0, Base(id, plain), []), height, v)
  }

  lemma QuietIsPossible(u: Coins, v: Entries, id: Hash, plain: Script, height: nat)
    requires NoIds(u, {id})
    ensures var s := QuietStep(id, plain, height, v);
            && Possible(u, v, s) && CoinsAfter(u, s) == u[OutPoint(id, 0) := Coin(1, plain, height, true)]
            && Passing(u, s.b, height) == map[]
  {
    OneOutput(Base(id, plain), height, true);
    var b := QuietStep(id, plain, height, v).b;
    assert Transactions(b) == [Base(id, plain)] && Transactions(b)[1..] == [];
    assert Ids(Transactions(b)) == {id} && DistinctIds(Transactions(b));
  }

  lemma FirstStep(db: Coins, steps: seq<ReorgViews.Step>)
    requires |steps| > 0 && Possible(db, map[], steps[0])
    ensures Proceeds(db, steps, 1)
    ensures At(db, steps, 0) == (db, map[])
    ensures At(db, steps, 1) == (CoinsAfter(db, steps[0]), Committed(Changed(db, map[], steps[0])))
  {
    assert Proceeds(db, steps, 0);
  }

  lemma NextStep(db: Coins, steps: seq<ReorgViews.Step>, n: nat)
    requires n < |steps| && Proceeds(db, steps, n)
    requires var (u, v) := At(db, steps, n); Possible(u, v, steps[n])
    ensures Proceeds(db, steps, n + 1)
    ensures var (u, v) := At(db, steps, n);
            At(db, steps, n + 1) == (CoinsAfter(u, steps[n]), Committed(Changed(u, v, steps[n])))
  {
  }

  /** The votes of one output only. */
  lemma OnlyVote(w: Weight, u: Coins, o: OutPoint)
    requires o in u && forall p :: p in u && p != o ==> w(u[p]) == 0
    ensures Total(w, u) == w(u[o])
  {
    SumWiden({o}, u.Keys, StoredWorth(w, u));
    SumSplit({o}, o, StoredWorth(w, u));
  }

  /** The n-th step attaches a block to a state whose disapproval is exact.  After it `kept` is
      the disapproval kept and `recount` the opposition there is. */
  ghost predicate TalliesAt(votes: Votes, tip: ElectionState, db: Coins, steps: seq<ReorgViews.Step>, n: nat, kept: int,
                            recount: int)
    requires n < |steps|
  {
    && Proceeds(db, steps, n + 1) && steps[n].Attach?
    && var (u, v) := At(db, steps, n);
    && Exact(votes, tip, u) && Kept(votes, tip, Changed(u, v, steps[n])) == kept
    && Total(Opposing(votes, tip.steward), CoinsAfter(u, steps[n])) == recount
  }

  lemma TallyAt(votes: Votes, tip: ElectionState, db: Coins, steps: seq<ReorgViews.Step>, n: nat, again: Coins)
    requires n < |steps| && steps[n].Attach? && Proceeds(db, steps, n + 1)
    requires var (u, v) := At(db, steps, n);
             && Exact(votes, tip, u) && Passing(u, steps[n].b, steps[n].height) == map[]
             && Again(steps, n, u, CoinsAfter(u, steps[n])) == again
    ensures var recount := Total(Opposing(votes, tip.steward), CoinsAfter(At(db, steps, n).0, steps[n]));
            TalliesAt(votes, tip, db, steps, n, recount + Total(Opposing(votes, tip.steward), again), recount)
  {
    hide Changed, Passing, Again, Total, Exact, CoinsAfter;
    TallyError(votes, tip, db, steps, n);
    NoCoinsNoWorth(Opposing(votes, tip.steward), map[]);
  }

  /** Three blocks attached through one view. */
  ghost predicate IsTrio(plain: Script, no: Script, x: nat, steps: seq<ReorgViews.Step>) {
    && |steps| == 3 && Proceeds(Start(plain, x), steps, 3)
    && steps[0] == VotingStep(plain, no, x)
    && steps[1] == QuietStep(5, plain, HEIGHT + 1, steps[1].loaded)
    && steps[2] == QuietStep(6, plain, HEIGHT + 2, steps[2].loaded)
  }

  lemma TrioExists(plain: Script, no: Script, x: nat) returns (steps: seq<ReorgViews.Step>)
    ensures IsTrio(plain, no, x, steps)
  {
    hide Possible, Changed, Proceeds, CoinsAfter, At;
    var db, s0 := Start(plain, x), VotingStep(plain, no, x);
    VotingIsPossible(plain, no, x);
    FirstStep(db, [s0]);
    var u1, v1 := Voted(plain, no, x), Committed(Changed(db, map[], s0));
    var s1 := QuietStep(5, plain, HEIGHT + 1, v1);
    QuietIsPossible(u1, v1, 5, plain, HEIGHT + 1);
    var u2, v2 := CoinsAfter(u1, s1), Committed(Changed(u1, v1, s1));
    var s2 := QuietStep(6, plain, HEIGHT + 2, v2);
    QuietIsPossible(u2, v2, 6, plain, HEIGHT + 2);
    steps := [s0, s1, s2];
    FirstStep(db, steps);
    NextStep(db, steps, 1);
    NextStep(db, steps, 2);
  }

  function VotedThen(plain: Script, no: Script, x: nat, n: nat): Coins {
    var u := Voted(plain, no, x);
    var w := if n > 1 then u[OutPoint(5, 0) := Coin(1, plain, HEIGHT + 1, true)] else u;
    if n > 2 then w[OutPoint(6, 0) := Coin(1, plain, HEIGHT + 2, true)] else w
  }

  /** The unspent set before and after each block of the trio. */
  lemma TrioCoins(plain: Script, no: Script, x: nat, steps: seq<ReorgViews.Step>, n: nat)
    requires IsTrio(plain, no, x, steps) && n < 3
    ensures Proceeds(Start(plain, x), steps, n) && Proceeds(Start(plain, x), steps, n + 1)
    ensures var u := At(Start(plain, x), steps, n).0;
            && u == (if n == 0 then Start(plain, x) else VotedThen(plain, no, x, n))
            && CoinsAfter(u, steps[n]) == VotedThen(plain, no, x, n + 1)
            && Passing(u, steps[n].b, steps[n].height) == map[]
  {
    hide CoinsAfter, Passing, Start, VotedThen, VotingStep, QuietStep, Possible;
    var db := Start(plain, x);
    assert Proceeds(db, steps, 2) && Proceeds(db, steps, 1);
    if n == 0 {
      FirstOfTrio(plain, no, x);
    } else {
      TrioCoins(plain, no, x, steps, n - 1);
      assert At(db, steps, n).0 == CoinsAfter(At(db, steps, n - 1).0, steps[n - 1]);
      hide At, Proceeds;
      OtherOfTrio(plain, no, x, steps[n].loaded, n);
    }
  }

  lemma FirstOfTrio(plain: Script, no: Script, x: nat)
    ensures var db, s := Start(plain, x), VotingStep(plain, no, x);
            CoinsAfter(db, s) == VotedThen(plain, no, x, 1) && Passing(db, s.b, s.height) == map[]
  {
    hide Connect, CreatedByBlock, CanConnect;
    VotingConnects(plain, no, x);
  }

  lemma OtherOfTrio(plain: Script, no: Script, x: nat, loaded: Entries, n: nat)
    requires 0 < n < 3
    ensures var u, s := VotedThen(plain, no, x, n), QuietStep(n + 4, plain, HEIGHT + n, loaded);
            CoinsAfter(u, s) == VotedThen(plain, no, x, n + 1) && Passing(u, s.b, s.height) == map[]
  {
    hide Connect, CreatedByBlock, CanConnect, Passing;
    QuietIsPossible(VotedThen(plain, no, x, n), loaded, n + 4, plain, HEIGHT + n);
  }

  lemma TrioAgain(plain: Script, no: Script, x: nat, steps: seq<ReorgViews.Step>)
    requires IsTrio(plain, no, x, steps)
    ensures var again := Again(steps, 2, VotedThen(plain, no, x, 2), VotedThen(plain, no, x, 3));
            && VOTE in again && again[VOTE] == Coin(x, no, HEIGHT, false)
            && forall o :: o in again && o != VOTE ==> again[o].script == plain
  {
    hide Proceeds;
    TwoIds(Transactions(steps[0].b));
    assert Transactions(steps[0].b) == [Base(2, plain), Pay(3, OLD, x, no)];
    assert Transactions(steps[1].b) == [Base(5, plain)] && Transactions(steps[1].b)[1..] == [];
    assert Ids(Transactions(steps[1].b)) == {5};
    hide Ids;
    assert Writer(steps, 2, VOTE) == Writer(steps, 1, VOTE) == Some(0);
    assert Even(steps, 2, VOTE);
  }

  /** Blocks attached by one reorganization: the first turns an output into a vote against the
      steward, the next two leave it alone.  The kept disapproval is right after the first and
      the second block.  The third counts the vote again. */
  lemma UntouchedVoteIsRepeated(votes: Votes, steward: Key, plain: Script, no: Script, x: nat)
    returns (steps: seq<ReorgViews.Step>)
    requires votes(no).opposes == Some(steward) && votes(plain).opposes == None
    ensures IsTrio(plain, no, x, steps)
    ensures TalliesAt(votes, ElectionState(steward, 0), Start(plain, x), steps, 0, x, x)
    ensures TalliesAt(votes, ElectionState(steward, x), Start(plain, x), steps, 1, x, x)
    ensures TalliesAt(votes, ElectionState(steward, x), Start(plain, x), steps, 2, x + x, x)
  {
    steps := TrioExists(plain, no, x);
    TrioTally(votes, steward, plain, no, x, steps, 0);
    TrioTally(votes, steward, plain, no, x, steps, 1);
    TrioTally(votes, steward, plain, no, x, steps, 2);
  }

  lemma TrioTally(votes: Votes, steward: Key, plain: Script, no: Script, x: nat, steps: seq<ReorgViews.Step>, n: nat)
    requires votes(no).opposes == Some(steward) && votes(plain).opposes == None
    requires IsTrio(plain, no, x, steps) && n < 3
    ensures TalliesAt(votes, ElectionState(steward, if n == 0 then 0 else x), Start(plain, x), steps, n,
                      if n == 2 then x + x else x, x)
  {
    hide Total, At, Proceeds, CoinsAfter, Passing, Again, TalliesAt, Start, VotedThen, IsTrio, Opposing, Aged, Settled;
    TrioIsAttached(plain, no, x, steps, n);
    TrioCoins(plain, no, x, steps, n);
    TrioWorth(votes, steward, plain, no, x, n);
    TrioWorth(votes, steward, plain, no, x, n + 1);
    TrioAgainWorth(votes, steward, plain, no, x, steps, n);
    var u := At(Start(plain, x), steps, n).0;
    TallyAt(votes, ElectionState(steward, if n == 0 then 0 else x), Start(plain, x), steps, n,
            Again(steps, n, u, CoinsAfter(u, steps[n])));
  }

  lemma TrioIsAttached(plain: Script, no: Script, x: nat, steps: seq<ReorgViews.Step>, n: nat)
    requires IsTrio(plain, no, x, steps) && n < 3
    ensures |steps| == 3 && steps[n].Attach?
  {
    hide Proceeds;
  }

  lemma TrioWorth(votes: Votes, steward: Key, plain: Script, no: Script, x: nat, n: nat)
    requires votes(no).opposes == Some(steward) && votes(plain).opposes == None
    ensures Total(Opposing(votes, steward), Start(plain, x)) == 0
    ensures Total(Opposing(votes, steward), VotedThen(plain, no, x, n)) == x
  {
    NoCoinsNoWorth(Opposing(votes, steward), Start(plain, x));
    OnlyVote(Opposing(votes, steward), VotedThen(plain, no, x, n), VOTE);
  }

  lemma TrioAgainWorth(votes: Votes, steward: Key, plain: Script, no: Script, x: nat, steps: seq<ReorgViews.Step>,
                       n: nat)
    requires votes(no).opposes == Some(steward) && votes(plain).opposes == None
    requires IsTrio(plain, no, x, steps) && n < 3
    ensures var u := if n == 0 then Start(plain, x) else VotedThen(plain, no, x, n);
            var again := Again(steps, n, u, VotedThen(plain, no, x, n + 1));
            Total(Opposing(votes, steward), again) == if n == 2 then x else 0
  {
    hide Total, Again, Start, VotedThen, Proceeds;
    var w := Opposing(votes, steward);
    if n == 2 {
      TrioAgain(plain, no, x, steps);
      OnlyVote(w, Again(steps, n, VotedThen(plain, no, x, 2), VotedThen(plain, no, x, 3)), VOTE);
    } else {
      var u := if n == 0 then Start(plain, x) else VotedThen(plain, no, x, n);
      NoneEven(steps, n, u, VotedThen(plain, no, x, n + 1));
      NoCoinsNoWorth(w, map[]);
    }
  }
}
