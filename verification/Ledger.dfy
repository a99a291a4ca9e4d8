/** A value that may be absent (a nil pointer in the node's own code). */
module Options {
  datatype Option<+T> = None | Some(value: T)
}

/** Blocks, transactions and the unspent output set: what connecting a block does to
    the set, what the spend journal records, and how disconnecting undoes it.

    The functions state the contract the chain code relies on: the view handed to
    connectBlock spends every referenced output and adds every created one.  The view
    itself is in UtxoViews. */
module Ledger {

  import Difficulty

  type Hash = nat
  type Byte = x: int | 0 <= x < 256

  datatype OutPoint = OutPoint(txid: Hash, index: nat)

  /** `spendable` is false for provably unspendable scripts, which never enter the set. */
  datatype TxOut = TxOut(amount: int, script: seq<Byte>, spendable: bool)

  /** An unspent output together with where it was created.  The same four fields are
      what a spend-journal entry stores. */
  datatype Coin = Coin(amount: int, script: seq<Byte>, height: int, isCoinBase: bool)

  datatype Tx = Tx(id: Hash, inputs: seq<OutPoint>, outputs: seq<TxOut>)

  /** `txs` are the transactions after the coinbase. */
  datatype Block = Block(hash: Hash, prev: Hash, bits: Difficulty.Uint32, coinbase: Tx, txs: seq<Tx>)

  /** A block that moves no money, for examples. */
  function EmptyBlock(hash: Hash, prev: Hash): Block { Block(hash, prev, 0, Tx(hash, [], []), []) }

  type Coins = map<OutPoint, Coin>

  /** The spendable outputs of a transaction as coins. */
  function Created(tx: Tx, height: nat, isCoinBase: bool): Coins { CreatedBy(tx.id, tx.outputs, height, isCoinBase) }

  function CreatedBy(id: Hash, outputs: seq<TxOut>, height: nat, isCoinBase: bool): (coins: Coins)
    ensures forall o :: o in coins ==> o.txid == id && o.index < |outputs| && coins[o].height == height
  {
    if outputs == [] then map[] else
      var i := |outputs| - 1;
      var before := CreatedBy(id, outputs[..i], height, isCoinBase);
      if outputs[i].spendable
      then before[OutPoint(id, i) := Coin(outputs[i].amount, outputs[i].script, height, isCoinBase)]
      else before
  }

  // ----- inputs of one transaction

  predicate CanSpend(u: Coins, inputs: seq<OutPoint>) {
    inputs == [] || (inputs[0] in u && CanSpend(u - {inputs[0]}, inputs[1..]))
  }

  function Spend(u: Coins, inputs: seq<OutPoint>): Coins {
    if inputs == [] then u else Spend(u - {inputs[0]}, inputs[1..])
  }

  /** The journal records of the spent outputs, in the order they are spent. */
  function Spent(u: Coins, inputs: seq<OutPoint>): (coins: seq<Coin>)
    requires CanSpend(u, inputs)
    ensures |coins| == |inputs|
  {
    if inputs == [] then [] else [u[inputs[0]]] + Spent(u - {inputs[0]}, inputs[1..])
  }

  /** Puts spent outputs back, last input first. */
  function Restore(u: Coins, inputs: seq<OutPoint>, coins: seq<Coin>): Coins
    requires |coins| == |inputs|
  {
    if inputs == [] then u
    else Restore(u, inputs[1..], coins[1..])[inputs[0] := coins[0]]
  }

  lemma {:induction false} RestoreUndoesSpend(u: Coins, inputs: seq<OutPoint>)
    requires CanSpend(u, inputs)
    ensures Restore(Spend(u, inputs), inputs, Spent(u, inputs)) == u
  {
    if inputs != [] {
      var coins := Spent(u, inputs);
      assert coins[1..] == Spent(u - {inputs[0]}, inputs[1..]);
      RestoreUndoesSpend(u - {inputs[0]}, inputs[1..]);
    }
  }

  // ----- a list of transactions

  predicate CanConnectTx(u: Coins, tx: Tx, height: nat) {
    CanSpend(u, tx.inputs) && Spend(u, tx.inputs).Keys !! Created(tx, height, false).Keys
  }

  function ConnectTx(u: Coins, tx: Tx, height: nat): Coins {
    Spend(u, tx.inputs) + Created(tx, height, false)
  }

  function DisconnectTx(u: Coins, tx: Tx, height: nat, coins: seq<Coin>): Coins
    requires |coins| == |tx.inputs|
  {
    Restore(u - Created(tx, height, false).Keys, tx.inputs, coins)
  }

  predicate CanConnectTxs(u: Coins, txs: seq<Tx>, height: nat)
    decreases txs
  {
    txs == [] || (CanConnectTx(u, txs[0], height) && CanConnectTxs(ConnectTx(u, txs[0], height), txs[1..], height))
  }

  function ConnectTxs(u: Coins, txs: seq<Tx>, height: nat): Coins
    decreases txs
  {
    if txs == [] then u else ConnectTxs(ConnectTx(u, txs[0], height), txs[1..], height)
  }

  function CountInputs(txs: seq<Tx>): nat {
    if txs == [] then 0 else |txs[0].inputs| + CountInputs(txs[1..])
  }

  function SpentByTxs(u: Coins, txs: seq<Tx>, height: nat): (coins: seq<Coin>)
    requires CanConnectTxs(u, txs, height)
    ensures |coins| == CountInputs(txs)
    decreases txs
  {
    if txs == [] then [] else
      Spent(u, txs[0].inputs) + SpentByTxs(ConnectTx(u, txs[0], height), txs[1..], height)
  }

  /** Undoes the transactions last one first, each taking its own share of the journal. */
  function DisconnectTxs(u: Coins, txs: seq<Tx>, height: nat, coins: seq<Coin>): Coins
    requires |coins| == CountInputs(txs)
  {
    if txs == [] then u else
      var k := |txs[0].inputs|;
      DisconnectTx(DisconnectTxs(u, txs[1..], height, coins[k..]), txs[0], height, coins[..k])
  }

  lemma {:induction false} DisconnectTxsUndoes(u: Coins, txs: seq<Tx>, height: nat)
    requires CanConnectTxs(u, txs, height)
    ensures DisconnectTxs(ConnectTxs(u, txs, height), txs, height, SpentByTxs(u, txs, height)) == u
    decreases txs
  {
    if txs != [] {
      var tx, k := txs[0], |txs[0].inputs|;
      var mid, coins := ConnectTx(u, tx, height), SpentByTxs(u, txs, height);
      assert coins[..k] == Spent(u, tx.inputs) && coins[k..] == SpentByTxs(mid, txs[1..], height);
      DisconnectTxsUndoes(mid, txs[1..], height);
      assert mid - Created(tx, height, false).Keys == Spend(u, tx.inputs);
      RestoreUndoesSpend(u, tx.inputs);
    }
  }

  // ----- a block

  predicate CanConnect(u: Coins, b: Block, height: nat) {
    && u.Keys !! Created(b.coinbase, height, true).Keys
    && CanConnectTxs(u + Created(b.coinbase, height, true), b.txs, height)
  }

  function Connect(u: Coins, b: Block, height: nat): Coins {
    ConnectTxs(u + Created(b.coinbase, height, true), b.txs, height)
  }

  function JournalEntry(u: Coins, b: Block, height: nat): (coins: seq<Coin>)
    requires CanConnect(u, b, height)
    ensures |coins| == CountInputs(b.txs)
  {
    SpentByTxs(u + Created(b.coinbase, height, true), b.txs, height)
  }

  function Disconnect(u: Coins, b: Block, height: nat, coins: seq<Coin>): Coins
    requires |coins| == CountInputs(b.txs)
  {
    DisconnectTxs(u, b.txs, height, coins) - Created(b.coinbase, height, true).Keys
  }

  /** Disconnecting a block with its own journal entry restores the unspent set exactly,
      also when the block spends outputs it created itself. */
  lemma DisconnectUndoesConnect(u: Coins, b: Block, height: nat)
    requires CanConnect(u, b, height)
    ensures Disconnect(Connect(u, b, height), b, height, JournalEntry(u, b, height)) == u
  {
    DisconnectTxsUndoes(u + Created(b.coinbase, height, true), b.txs, height);
    assert (u + Created(b.coinbase, height, true)) - Created(b.coinbase, height, true).Keys == u;
  }

  // ----- created heights

  predicate CreatedAfterGenesis(u: Coins) {
    forall o | o in u :: u[o].height > 0
  }

  lemma {:induction false} SpendKeeps(u: Coins, inputs: seq<OutPoint>)
    requires CreatedAfterGenesis(u)
    ensures CreatedAfterGenesis(Spend(u, inputs))
    ensures CanSpend(u, inputs) ==> forall c | c in Spent(u, inputs) :: c.height > 0
  {
    if inputs != [] { SpendKeeps(u - {inputs[0]}, inputs[1..]); }
  }

  lemma {:induction false} ConnectTxsKeeps(u: Coins, txs: seq<Tx>, height: nat)
    requires CreatedAfterGenesis(u) && height > 0
    ensures CreatedAfterGenesis(ConnectTxs(u, txs, height))
    ensures CanConnectTxs(u, txs, height) ==> forall c | c in SpentByTxs(u, txs, height) :: c.height > 0
    decreases txs
  {
    if txs != [] {
      SpendKeeps(u, txs[0].inputs);
      ConnectTxsKeeps(ConnectTx(u, txs[0], height), txs[1..], height);
    }
  }

  /** No journal entry ever carries height zero, so the branch that rescues legacy
      entries without a height is never taken for blocks connected by this code. */
  lemma JournalHasNoLegacyEntries(u: Coins, b: Block, height: nat)
    requires CreatedAfterGenesis(u) && height > 0 && CanConnect(u, b, height)
    ensures CreatedAfterGenesis(Connect(u, b, height))
    ensures forall c | c in JournalEntry(u, b, height) :: c.height > 0
  {
    ConnectTxsKeeps(u + Created(b.coinbase, height, true), b.txs, height);
  }
}
