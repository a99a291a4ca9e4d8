/** The unspent set of a chain, in terms of its blocks: the outputs that some block creates and
    no later transaction spends. */
module UnspentSets {
  import opened Options
  import opened Ledger
  import opened BlockTree
  import opened ChainRules
  import opened UtxoViews
  import opened ReorgViews

  // ----- one block

  /** c is the coin of output o of the block: a spendable output of one of its transactions. */
  predicate IsOutputOf(b: Block, height: nat, o: OutPoint, c: Coin) {
    var all := Transactions(b);
    exists k :: 0 <= k < |all| && all[k].id == o.txid && o.index < |all[k].outputs|
                && all[k].outputs[o.index].spendable
                && c == Coin(all[k].outputs[o.index].amount, all[k].outputs[o.index].script, height, k == 0)
  }

  lemma {:induction false} CreatedIff(id: Hash, outputs: seq<TxOut>, height: nat, isCoinBase: bool, o: OutPoint)
    ensures var coins := CreatedBy(id, outputs, height, isCoinBase);
            && (o in coins <==> o.txid == id && o.index < |outputs| && outputs[o.index].spendable)
            && (o in coins ==>
                  coins[o] == Coin(outputs[o.index].amount, outputs[o.index].script, height, isCoinBase))
  {
    if outputs != [] {
      CreatedIff(id, outputs[..|outputs| - 1], height, isCoinBase, o);
    }
  }

  lemma {:induction false} TxsCreateIff(txs: seq<Tx>, height: nat, o: OutPoint, c: Coin)
    requires DistinctIds(txs)
    ensures Get(CreatedByTxs(txs, height), o) == Some(c) <==>
            exists k :: 0 <= k < |txs| && Get(Created(txs[k], height, false), o) == Some(c)
  {
    if txs != [] {
      var first, rest := Created(txs[0], height, false), txs[1..];
      TxsCreateIff(rest, height, o, c);
      TxsCreateKeys(rest, height);
      CreatedHaveIds(rest);
      if k :| 0 <= k < |rest| && Get(Created(rest[k], height, false), o) == Some(c) {
        assert rest[k] == txs[k + 1];
      }
      if k :| 0 < k < |txs| && Get(Created(txs[k], height, false), o) == Some(c) {
        assert rest[k - 1] == txs[k];
      }
    }
  }

  /** What a block creates are exactly its outputs. */
  lemma BlockCreatesIff(b: Block, height: nat, o: OutPoint, c: Coin)
    requires DistinctIds(Transactions(b))
    ensures Get(CreatedByBlock(b, height), o) == Some(c) <==> IsOutputOf(b, height, o, c)
  {
    var all := Transactions(b);
    assert all[0] == b.coinbase && all[1..] == b.txs;
    TxsCreateIff(b.txs, height, o, c);
    TxsCreateKeys(b.txs, height);
    CreatedHaveIds(b.txs);
    forall k | 0 <= k < |all|
      ensures Get(Created(all[k], height, k == 0), o) == Some(c) <==>
              && all[k].id == o.txid && o.index < |all[k].outputs| && all[k].outputs[o.index].spendable
              && c == Coin(all[k].outputs[o.index].amount, all[k].outputs[o.index].script, height, k == 0)
    {
      CreatedIff(all[k].id, all[k].outputs, height, k == 0, o);
    }
    hide Created, CreatedByTxs, Ids;
    if k :| 0 <= k < |b.txs| && Get(Created(b.txs[k], height, false), o) == Some(c) { assert all[k + 1] == b.txs[k]; }
    if k :| 0 < k < |all| && Get(Created(all[k], height, false), o) == Some(c) { assert b.txs[k - 1] == all[k]; }
  }

  lemma {:induction false} SpendIff(u: Coins, inputs: seq<OutPoint>, o: OutPoint)
    ensures o in Spend(u, inputs) <==> o in u && o !in inputs
    ensures o in Spend(u, inputs) ==> Spend(u, inputs)[o] == u[o]
  {
    if inputs != [] { SpendIff(u - {inputs[0]}, inputs[1..], o); }
  }

  /** An output is unspent after the transactions exactly if it was there or they create it, and
      they do not spend it. */
  lemma {:induction false} TxsConnectIff(u: Coins, txs: seq<Tx>, height: nat, o: OutPoint)
    requires CanConnectTxs(u, txs, height) && DistinctIds(txs) && NoIds(u, Ids(txs))
    ensures Get(ConnectTxs(u, txs, height), o) ==
            if Spends(txs, o) then None
            else if o in u then Some(u[o]) else Get(CreatedByTxs(txs, height), o)
    decreases txs
  {
    if txs != [] {
      var tx, rest := txs[0], txs[1..];
      var mid := ConnectTx(u, tx, height);
      SpendIff(u, tx.inputs, o);
      if o in tx.inputs { CanSpendOnlyStored(u, tx.inputs, o); }
      assert NoIds(mid, Ids(rest)) by { MidHasNoIds(u, tx, rest, height); }
      TxsConnectIff(mid, rest, height, o);
      SpendsSplit(txs, o);
      TxsCreateKeys(rest, height);
      CreatedHaveIds(rest);
    }
  }

  lemma MidHasNoIds(u: Coins, tx: Tx, rest: seq<Tx>, height: nat)
    requires NoIds(u, Ids(rest)) && tx.id !in Ids(rest)
    ensures NoIds(ConnectTx(u, tx, height), Ids(rest))
  {
    forall o | o in ConnectTx(u, tx, height) ensures o.txid !in Ids(rest) { SpendIff(u, tx.inputs, o); }
  }

  lemma ConnectIff(u: Coins, b: Block, height: nat, o: OutPoint)
    requires CanConnect(u, b, height) && FreshIds(u, b)
    ensures Get(Connect(u, b, height), o) ==
            if Spends(b.txs, o) then None
            else if o in u then Some(u[o]) else Get(CreatedByBlock(b, height), o)
  {
    var all := Transactions(b);
    assert all[0] == b.coinbase && all[1..] == b.txs;
    var w := u + Created(b.coinbase, height, true);
    assert NoIds(w, Ids(b.txs));
    TxsConnectIff(w, b.txs, height, o);
    TxsCreateKeys(b.txs, height);
    CreatedHaveIds(b.txs);
  }

  // ----- the journal

  function InputList(txs: seq<Tx>): seq<OutPoint> {
    if txs == [] then [] else txs[0].inputs + InputList(txs[1..])
  }

  lemma {:induction false} SpentAt(u: Coins, inputs: seq<OutPoint>, i: nat)
    requires CanSpend(u, inputs) && i < |inputs|
    ensures inputs[i] in u && Spent(u, inputs)[i] == u[inputs[i]]
  {
    if i > 0 { SpentAt(u - {inputs[0]}, inputs[1..], i - 1); }
  }

  lemma {:induction false} TxsJournalAt(u: Coins, txs: seq<Tx>, height: nat, i: nat)
    requires CanConnectTxs(u, txs, height) && DistinctIds(txs) && NoIds(u, Ids(txs)) && i < |InputList(txs)|
    ensures |SpentByTxs(u, txs, height)| == |InputList(txs)|
    ensures Get(u + CreatedByTxs(txs, height), InputList(txs)[i]) == Some(SpentByTxs(u, txs, height)[i])
    decreases txs
  {
    var tx, rest := txs[0], txs[1..];
    var mid := ConnectTx(u, tx, height);
    InputCount(txs);
    InputCount(rest);
    if i < |tx.inputs| {
      SpentAt(u, tx.inputs, i);
      assert InputList(txs)[i] == tx.inputs[i];
      TxsCreateKeys(txs, height);
      CreatedHaveIds(txs);
    } else {
      var o := InputList(rest)[i - |tx.inputs|];
      MidHasNoIds(u, tx, rest, height);
      TxsJournalAt(mid, rest, height, i - |tx.inputs|);
      SpendIff(u, tx.inputs, o);
      TxsCreateKeys(rest, height);
      CreatedHaveIds(rest);
      assert InputList(txs)[i] == o;
    }
  }

  lemma MergeThree(a: Coins, b: Coins, c: Coins)
    ensures a + b + c == a + (b + c)
  {
  }

  lemma {:induction false} InputCount(txs: seq<Tx>)
    ensures |InputList(txs)| == CountInputs(txs)
  {
    if txs != [] { InputCount(txs[1..]); }
  }

  /** The journal entry of a block lists, input by input in the order of the block, the coin each
      input spends. */
  lemma JournalAt(u: Coins, b: Block, height: nat, i: nat)
    requires CanConnect(u, b, height) && FreshIds(u, b) && i < |InputList(b.txs)|
    ensures |JournalEntry(u, b, height)| == |InputList(b.txs)|
    ensures Get(u + CreatedByBlock(b, height), InputList(b.txs)[i]) == Some(JournalEntry(u, b, height)[i])
  {
    var all := Transactions(b);
    assert all[0] == b.coinbase && all[1..] == b.txs;
    var first := Created(b.coinbase, height, true);
    assert NoIds(u + first, Ids(b.txs));
    hide NoIds, Created, InputList, SpentByTxs, CanConnectTxs, DistinctIds, CreatedByTxs;
    TxsJournalAt(u + first, b.txs, height, i);
    MergeThree(u, first, CreatedByTxs(b.txs, height));
  }

  // ----- the chain

  /** Every block above genesis connects, and its transaction ids are new. */
  predicate Ordinary(n: BlockNode) {
    n.Child? ==>
      && Ordinary(n.parent) && CanConnect(UtxosOf(n.parent), n.block, Height(n))
      && FreshIds(UtxosOf(n.parent), n.block)
  }

  /** The block at height h of the chain creates o with coin c, and no transaction from there on
      spends it. */
  predicate LivesSince(n: BlockNode, o: OutPoint, c: Coin, h: nat) {
    && 0 < h <= Height(n) && IsOutputOf(BlockTree.At(n, h).block, h, o, c)
    && forall k :: h <= k <= Height(n) ==> !Spends(BlockTree.At(n, k).block.txs, o)
  }

  lemma LivesOn(n: BlockNode, o: OutPoint, c: Coin, h: nat)
    requires n.Child? && h < Height(n)
    ensures LivesSince(n, o, c, h) <==> LivesSince(n.parent, o, c, h) && !Spends(n.block.txs, o)
  {
    assert forall k :: 0 <= k < Height(n) ==> BlockTree.At(n, k) == BlockTree.At(n.parent, k);
    assert BlockTree.At(n, Height(n)) == n;
    hide IsOutputOf, Spends;
    if LivesSince(n, o, c, h) {
      assert BlockTree.At(n, h) == BlockTree.At(n.parent, h);
      forall k | h <= k <= Height(n.parent) ensures !Spends(BlockTree.At(n.parent, k).block.txs, o) {
        assert BlockTree.At(n, k) == BlockTree.At(n.parent, k);
      }
    }
  }

  /** An output is unspent on a chain with coin c exactly if some block above genesis creates it
      as c and nothing since has spent it. */
  lemma {:induction false} UnspentIff(n: BlockNode, o: OutPoint, c: Coin)
    requires Ordinary(n)
    ensures Get(UtxosOf(n), o) == Some(c) <==> exists h :: LivesSince(n, o, c, h)
  {
    if n.Genesis? {
      assert forall h :: !LivesSince(n, o, c, h);
    } else {
      UnspentIff(n.parent, o, c);
      ConnectIff(UtxosOf(n.parent), n.block, Height(n), o);
      BlockCreatesIff(n.block, Height(n), o, c);
      UnspentStep(n, o, c);
    }
  }

  lemma UnspentStep(n: BlockNode, o: OutPoint, c: Coin)
    requires Ordinary(n) && n.Child?
    requires Get(UtxosOf(n.parent), o) == Some(c) <==> exists h :: LivesSince(n.parent, o, c, h)
    requires IsOutputOf(n.block, Height(n), o, c) <==> Get(CreatedByBlock(n.block, Height(n)), o) == Some(c)
    requires Get(UtxosOf(n), o) ==
             if Spends(n.block.txs, o) then None
             else if o in UtxosOf(n.parent) then Some(UtxosOf(n.parent)[o])
             else Get(CreatedByBlock(n.block, Height(n)), o)
    ensures Get(UtxosOf(n), o) == Some(c) <==> exists h :: LivesSince(n, o, c, h)
  {
    hide IsOutputOf, Spends, UtxosOf, CreatedByBlock, Ordinary, LivesSince;
    var p, height := n.parent, Height(n);
    if IsOutputOf(n.block, height, o, c) { NewIsAbsent(n, o, c); }
    LivesNow(n, o, c);
    if Get(UtxosOf(n), o) == Some(c) {
      if o in UtxosOf(p) {
        var h :| LivesSince(p, o, c, h);
        LivesBelow(p, o, c, h);
        LivesOn(n, o, c, h);
      }
    }
    if h :| LivesSince(n, o, c, h) {
      LivesBelow(n, o, c, h);
      if h < height { LivesOn(n, o, c, h); }
    }
  }

  lemma LivesNow(n: BlockNode, o: OutPoint, c: Coin)
    requires n.Child?
    ensures LivesSince(n, o, c, Height(n)) <==> IsOutputOf(n.block, Height(n), o, c) && !Spends(n.block.txs, o)
  {
    assert BlockTree.At(n, Height(n)) == n;
    hide IsOutputOf, Spends;
  }

  lemma LivesBelow(n: BlockNode, o: OutPoint, c: Coin, h: nat)
    requires LivesSince(n, o, c, h)
    ensures h <= Height(n)
  {
  }

  lemma NewIsAbsent(n: BlockNode, o: OutPoint, c: Coin)
    requires Ordinary(n) && n.Child? && IsOutputOf(n.block, Height(n), o, c)
    ensures o !in UtxosOf(n.parent)
  {
    BlockCreatesIff(n.block, Height(n), o, c);
    BlockCreatesKeys(n.block, Height(n));
    hide CreatedByBlock, IsOutputOf, CreatedKeys, Ids, UtxosOf;
  }
}
