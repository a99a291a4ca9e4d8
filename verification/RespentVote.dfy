/** Checking a reorganization in which both branches spend the same vote. */
module RespentVotes {
  import opened Options
  import opened Ledger
  import opened UtxoViews
  import opened ReorgViews
  import opened ChainStore
  import opened Elections
  import opened ElectionTally
  import opened CheckedTally
  import opened TallyExamples

  /** A block that moves the old output to one that does not vote. */
  function PayBlock(hash: Hash, base: Hash, pay: Hash, plain: Script, x: nat): Block {
    Block(hash, 1101, 0, Base(base, plain), [Pay(pay, OLD, x, plain)])
  }

  function Paid(base: Hash, pay: Hash, plain: Script, x: nat): Coins {
    map[OutPoint(base, 0) := Coin(1, plain, HEIGHT, true), OutPoint(pay, 0) := Coin(x, plain, HEIGHT, false)]
  }

  lemma PayConnects(hash: Hash, base: Hash, pay: Hash, plain: Script, no: Script, x: nat)
    requires 1 < base < pay
    ensures var b := PayBlock(hash, base, pay, plain, x);
            CanConnect(Start(no, x), b, HEIGHT) && Connect(Start(no, x), b, HEIGHT) == Paid(base, pay, plain, x)
  {
    var b := PayBlock(hash, base, pay, plain, x);
    OneOutput(b.coinbase, HEIGHT, true);
    OneOutput(b.txs[0], HEIGHT, false);
    hide Created;
    var u := Start(no, x) + Created(b.coinbase, HEIGHT, true);
    assert Spend(u, [OLD]) == u - {OLD} && CanSpend(u, [OLD]);
    assert b.txs[1..] == [];
    assert CanConnectTx(u, b.txs[0], HEIGHT) && CanConnectTxs(u, b.txs, HEIGHT);
    assert ConnectTxs(u, b.txs, HEIGHT) == ConnectTx(u, b.txs[0], HEIGHT);
  }

  lemma PayCreates(hash: Hash, base: Hash, pay: Hash, plain: Script, x: nat)
    requires 1 < base < pay
    ensures CreatedByBlock(PayBlock(hash, base, pay, plain, x), HEIGHT) == Paid(base, pay, plain, x)
  {
    var b := PayBlock(hash, base, pay, plain, x);
    OneOutput(b.coinbase, HEIGHT, true);
    OneOutput(b.txs[0], HEIGHT, false);
    hide Created;
    assert b.txs[1..] == [];
    assert CreatedByTxs(b.txs, HEIGHT) == Created(b.txs[0], HEIGHT, false);
  }

  lemma PayIsFresh(hash: Hash, base: Hash, pay: Hash, plain: Script, no: Script, x: nat)
    requires 1 < base < pay
    ensures FreshIds(Start(no, x), PayBlock(hash, base, pay, plain, x))
  {
    var all := Transactions(PayBlock(hash, base, pay, plain, x));
    assert all == [Base(base, plain), Pay(pay, OLD, x, plain)];
    TwoIds(all);
    hide Ids, DistinctIds;
  }

  lemma PayTouches(hash: Hash, base: Hash, pay: Hash, plain: Script, x: nat)
    ensures TouchedBy(PayBlock(hash, base, pay, plain, x)) == {OutPoint(base, 0), OutPoint(pay, 0), OLD}
  {
    var b := PayBlock(hash, base, pay, plain, x);
    var all := Transactions(b);
    OneOutput(b.coinbase, 0, false);
    OneOutput(b.txs[0], 0, false);
    hide Created;
    assert all[0] == b.coinbase && all[1..] == b.txs && b.txs[1..] == [];
    assert CreatedKeys(b.txs) == {OutPoint(pay, 0)};
    assert InputsOf(b.txs) == {OLD};
  }

  function OldBranch(plain: Script, no: Script, x: nat): ReorgViews.Step {
    Detach(PayBlock(1102, 2, 3, plain, x), HEIGHT, map[OLD := None], Start(no, x))
  }

  function NewBranch(plain: Script, x: nat, v: Entries): ReorgViews.Step {
    Attach(PayBlock(1103, 5, 6, plain, x), HEIGHT, v)
  }

  function OutsOf(plain: Script, no: Script, x: nat): Outs {
    o => if o == OLD then Coin(x, no, 0, false)
         else Coin(if o.txid == 2 || o.txid == 5 then 1 else x, plain, 0, false)
  }

  lemma PayBrings(hash: Hash, base: Hash, pay: Hash, plain: Script, no: Script, x: nat)
    requires (base == 2 && pay == 3) || (base == 5 && pay == 6)
    ensures Genuine(OutsOf(plain, no, x), CreatedByBlock(PayBlock(hash, base, pay, plain, x), HEIGHT))
    ensures Genuine(OutsOf(plain, no, x), Start(no, x)) && Genuine(OutsOf(plain, no, x), Paid(base, pay, plain, x))
  {
    PayCreates(hash, base, pay, plain, x);
    hide CreatedByBlock, PayBlock;
  }

  lemma OldGoes(plain: Script, no: Script, x: nat)
    ensures var db := Paid(2, 3, plain, x); Goes(db, db, map[], OldBranch(plain, no, x))
  {
    hide CanConnect, Connect, FreshIds, Ids, Start;
    PayConnects(1102, 2, 3, plain, no, x);
    PayIsFresh(1102, 2, 3, plain, no, x);
    var b := PayBlock(1102, 2, 3, plain, x);
    assert OLD in b.txs[0].inputs && Spends(b.txs, OLD);
    hide Spends;
  }

  lemma NewGoes(plain: Script, no: Script, x: nat, v: Entries)
    requires OLD in v
    ensures Goes(Paid(2, 3, plain, x), Start(no, x), v, NewBranch(plain, x, v))
  {
    hide CanConnect, Connect, FreshIds, Ids, Start, Paid, Spends, IsNewOutput, Stored;
    PayConnects(1103, 5, 6, plain, no, x);
    PayIsFresh(1103, 5, 6, plain, no, x);
  }

  lemma TwoSteps(outs: Outs, db: Coins, s0: ReorgViews.Step, s1: ReorgViews.Step)
    requires Genuine(outs, db) && Goes(db, db, map[], s0) && Brings(outs, s0) && Brings(outs, s1)
    requires Goes(db, CoinsAfter(db, s0), s1.loaded, s1) && s1.loaded == ViewAfter(db, db, map[], s0)
    ensures Checks(outs, db, [s0, s1], 2) && Shown(outs, db, [s0, s1], 2).0 == CoinsAfter(CoinsAfter(db, s0), s1)
    ensures Touched([s0, s1], 2) == TouchedBy(s0.b) + TouchedBy(s1.b)
  {
    hide Goes, Brings, Genuine, ViewAfter, TouchedBy, CoinsAfter;
    StepTracks(outs, db, db, map[], s0, {});
    var steps := [s0, s1];
    assert Checks(outs, db, steps, 0) && Shown(outs, db, steps, 0) == (db, map[]);
    assert Checks(outs, db, steps, 1) && Shown(outs, db, steps, 1) == (CoinsAfter(db, s0), s1.loaded);
    assert Touched(steps, 1) == TouchedBy(s0.b);
  }

  /** Both branches spend the vote. */
  ghost predicate AreBranches(plain: Script, no: Script, x: nat, steps: seq<ReorgViews.Step>) {
    && |steps| == 2 && steps[0] == OldBranch(plain, no, x) && steps[1] == NewBranch(plain, x, steps[1].loaded)
    && Checks(OutsOf(plain, no, x), Paid(2, 3, plain, x), steps, 2)
  }

  /** The block of the old branch detached, that of the new branch attached. */
  lemma Branches(plain: Script, no: Script, x: nat) returns (steps: seq<ReorgViews.Step>)
    ensures AreBranches(plain, no, x, steps)
    ensures Shown(OutsOf(plain, no, x), Paid(2, 3, plain, x), steps, 2).0 == Paid(5, 6, plain, x)
    ensures Touched(steps, 2) == {OLD, OutPoint(2, 0), OutPoint(3, 0), OutPoint(5, 0), OutPoint(6, 0)}
  {
    hide Goes, Genuine, ViewAfter, TouchedBy, PayBlock, Connect, CreatedByBlock, CanConnect, Paid, Start, OutsOf, Shown;
    hide Checks, Touched;
    var db, outs, s0 := Paid(2, 3, plain, x), OutsOf(plain, no, x), OldBranch(plain, no, x);
    PayBrings(1102, 2, 3, plain, no, x);
    PayBrings(1103, 5, 6, plain, no, x);
    PayTouches(1102, 2, 3, plain, x);
    PayTouches(1103, 5, 6, plain, x);
    OldGoes(plain, no, x);
    NothingTracks(outs, db);
    var v := ViewAfter(db, db, map[], s0);
    StepTracks(outs, db, db, map[], s0, {});
    NewGoes(plain, no, x, v);
    PayConnects(1103, 5, 6, plain, no, x);
    TwoSteps(outs, db, s0, NewBranch(plain, x, v));
    steps := [s0, NewBranch(plain, x, v)];
  }

  lemma NothingTracks(outs: Outs, db: Coins)
    ensures Tracks(outs, db, db, map[], {})
  {
  }

  /** When the new block is checked, the vote that both branches spend is taken off the
      disapproval though it was not part of it. */
  lemma RespentVoteIsSubtracted(votes: Votes, steward: Key, plain: Script, no: Script, x: nat)
    returns (steps: seq<ReorgViews.Step>)
    requires votes(no).opposes == Some(steward) && votes(plain).opposes == None
    ensures AreBranches(plain, no, x, steps)
    ensures var (u, v) := Shown(OutsOf(plain, no, x), Paid(2, 3, plain, x), steps, 2);
            && Exact(votes, ElectionState(steward, 0), Paid(2, 3, plain, x))
            && Total(Opposing(votes, steward), u) == 0 && Kept(votes, ElectionState(steward, 0), v) == 0 - x as int
  {
    hide Shown, Checks, Touched, Total, Kept, AreBranches, OutsOf, Paid, Opposing;
    var db, outs := Paid(2, 3, plain, x), OutsOf(plain, no, x);
    steps := Branches(plain, no, x);
    assert |steps| == 2 && Checks(outs, db, steps, 2) by { BranchesCheck(plain, no, x, steps); }
    BranchesAreWorth(votes, steward, plain, no, x, Touched(steps, 2));
    CheckedTallyIff(outs, votes, ElectionState(steward, 0), db, steps, 2);
  }

  lemma BranchesCheck(plain: Script, no: Script, x: nat, steps: seq<ReorgViews.Step>)
    requires AreBranches(plain, no, x, steps)
    ensures |steps| == 2 && Checks(OutsOf(plain, no, x), Paid(2, 3, plain, x), steps, 2)
  {
  }

  lemma BranchesAreWorth(votes: Votes, steward: Key, plain: Script, no: Script, x: nat, touched: set<OutPoint>)
    requires votes(no).opposes == Some(steward) && votes(plain).opposes == None
    requires touched == {OLD, OutPoint(2, 0), OutPoint(3, 0), OutPoint(5, 0), OutPoint(6, 0)}
    ensures var db, u, w := Paid(2, 3, plain, x), Paid(5, 6, plain, x), Opposing(votes, steward);
            && Total(w, db) == 0 && Total(w, u) == 0
            && SumOver(Twice(touched, db, u), Voice(OutsOf(plain, no, x), w)) == 0
            && SumOver(Neither(touched, db, u), Voice(OutsOf(plain, no, x), w)) == x
  {
    var db, u, w := Paid(2, 3, plain, x), Paid(5, 6, plain, x), Opposing(votes, steward);
    NoCoinsNoWorth(w, db);
    NoCoinsNoWorth(w, u);
    assert Neither(touched, db, u) == {OLD} && Twice(touched, db, u) == {};
    SumSplit({OLD}, OLD, Voice(OutsOf(plain, no, x), w));
    assert {OLD} - {OLD} == {};
  }
}
