/** What the database and the in-memory snapshot hold for the best chain, as a function of
    the tip. */
module ChainStore {
  import opened Ledger
  import opened BlockTree
  import opened ChainRules
  import Difficulty

  datatype ElectionState = ElectionState(steward: seq<Byte>, disapproval: int)

  /** The snapshot handed to readers. */
  datatype BestState = BestState(
    hash: Hash, height: nat, bits: Difficulty.Uint32, numTxns: nat, totalTxns: nat, elect: ElectionState)

  datatype BestRow = BestRow(hash: Hash, height: nat, totalTxns: nat)

  /** The buckets.  Election states are kept for every block that was ever the tip. */
  datatype Db = Db(
    rows: map<BlockNode, Status>,
    blocks: map<Hash, Block>,
    best: BestRow,
    hashIndex: map<Hash, nat>,
    heightIndex: map<nat, Hash>,
    journal: map<Hash, seq<Coin>>,
    utxos: Coins,
    elections: map<Hash, ElectionState>)

  function NumTxns(b: Block): nat { 1 + |b.txs| }

  function TotalTxns(n: BlockNode): nat {
    NumTxns(n.block) + if n.Genesis? then 0 else TotalTxns(n.parent)
  }

  function AllTransactions(nodes: seq<BlockNode>): seq<Tx> {
    if nodes == [] then [] else
      var last := nodes[|nodes| - 1].block;
      AllTransactions(nodes[..|nodes| - 1]) + [last.coinbase] + last.txs
  }

  /** The total counts every transaction of the chain, coinbases included. */
  lemma {:induction false} TotalCountsAll(n: BlockNode)
    ensures TotalTxns(n) == |AllTransactions(Path(n))|
  {
    assert Path(n)[..Height(n)] == if n.Genesis? then [] else Path(n.parent);
    if n.Child? { TotalCountsAll(n.parent); }
  }

  function HashIndexOf(n: BlockNode): map<Hash, nat> {
    (if n.Genesis? then map[] else HashIndexOf(n.parent))[n.block.hash := Height(n)]
  }

  function HeightIndexOf(n: BlockNode): map<nat, Hash> {
    (if n.Genesis? then map[] else HeightIndexOf(n.parent))[Height(n) := n.block.hash]
  }

  function JournalOf(n: BlockNode): map<Hash, seq<Coin>> {
    if n.Genesis? then map[] else
      var entry := if Connectable(n) then JournalEntry(UtxosOf(n.parent), n.block, Height(n)) else [];
      JournalOf(n.parent)[n.block.hash := entry]
  }

  predicate ElectionsKnown(elections: map<Hash, ElectionState>, n: BlockNode) {
    n.block.hash in elections && (n.Child? ==> ElectionsKnown(elections, n.parent))
  }

  /** The stored maps and the snapshot are exactly those of the chain ending in tip. */
  predicate StoreMatches(db: Db, snapshot: BestState, tip: BlockNode) {
    && db.hashIndex == HashIndexOf(tip)
    && db.heightIndex == HeightIndexOf(tip)
    && db.journal == JournalOf(tip)
    && db.utxos == UtxosOf(tip)
    && db.best == BestRow(tip.block.hash, Height(tip), TotalTxns(tip))
    && ElectionsKnown(db.elections, tip)
    && snapshot == BestState(tip.block.hash, Height(tip), tip.block.bits, NumTxns(tip.block), TotalTxns(tip),
                             db.elections[tip.block.hash])
  }

  // ----- reading the indexes

  /** No two blocks of the chain share a hash. */
  predicate DistinctHashes(n: BlockNode) {
    n.Child? ==> n.block.hash !in HashIndexOf(n.parent) && DistinctHashes(n.parent)
  }

  lemma {:induction false} HashIndexLists(n: BlockNode, h: Hash)
    requires h in HashIndexOf(n)
    ensures HashIndexOf(n)[h] <= Height(n) && At(n, HashIndexOf(n)[h]).block.hash == h
  {
    if n.Child? && h != n.block.hash { HashIndexLists(n.parent, h); }
  }

  lemma {:induction false} HashIndexCovers(n: BlockNode, k: nat)
    requires DistinctHashes(n) && k <= Height(n)
    ensures At(n, k).block.hash in HashIndexOf(n) && HashIndexOf(n)[At(n, k).block.hash] == k
  {
    if k < Height(n) { HashIndexCovers(n.parent, k); }
  }

  lemma {:induction false} HeightIndexLists(n: BlockNode, k: nat)
    ensures k in HeightIndexOf(n) <==> k <= Height(n)
    ensures k <= Height(n) ==> HeightIndexOf(n)[k] == At(n, k).block.hash
  {
    if n.Child? && k != Height(n) { HeightIndexLists(n.parent, k); }
  }

  lemma {:induction false} JournalLists(n: BlockNode, h: Hash)
    requires DistinctHashes(n)
    ensures h in JournalOf(n) <==> h in HashIndexOf(n) && HashIndexOf(n)[h] > 0
  {
    if n.Child? { JournalLists(n.parent, h); }
  }

  /** In every state whose store matches its tip, the hash and height indexes are inverse to
      each other, list exactly the best chain, and the spend journal has an entry for
      exactly the blocks above genesis. */
  lemma IndexesAgree(db: Db, snapshot: BestState, tip: BlockNode)
    requires StoreMatches(db, snapshot, tip) && DistinctHashes(tip)
    ensures forall h, k :: h in db.hashIndex && db.hashIndex[h] == k <==> k in db.heightIndex && db.heightIndex[k] == h
    ensures forall k :: k in db.heightIndex <==> 0 <= k <= Height(tip)
    ensures forall k :: 0 <= k <= Height(tip) ==> db.heightIndex[k] == Path(tip)[k].block.hash
    ensures forall h :: h in db.journal <==> h in db.hashIndex && db.hashIndex[h] > 0
  {
    forall h, k
      ensures h in db.hashIndex && db.hashIndex[h] == k <==> k in db.heightIndex && db.heightIndex[k] == h
    {
      if h in db.hashIndex { HashIndexLists(tip, h); }
      if k in db.heightIndex {
        HeightIndexLists(tip, k);
        HashIndexCovers(tip, k);
      } else if h in db.hashIndex && db.hashIndex[h] == k {
        HeightIndexLists(tip, k);
      }
    }
    forall k
      ensures k in db.heightIndex <==> 0 <= k <= Height(tip)
      ensures 0 <= k <= Height(tip) ==> db.heightIndex[k] == Path(tip)[k].block.hash
    {
      if k >= 0 { HeightIndexLists(tip, k); }
      if 0 <= k <= Height(tip) { PathAt(tip, k); }
    }
    forall h
      ensures h in db.journal <==> h in db.hashIndex && db.hashIndex[h] > 0
    {
      if h >= 0 { JournalLists(tip, h); }
    }
  }

  /** The store is determined by the tip and its election state. */
  lemma StoreIsDetermined(a: Db, s: BestState, b: Db, t: BestState, tip: BlockNode)
    requires StoreMatches(a, s, tip) && StoreMatches(b, t, tip)
    requires a.elections[tip.block.hash] == b.elections[tip.block.hash]
    ensures s == t && b.(rows := a.rows, blocks := a.blocks, elections := a.elections) == a
  {
  }

  lemma {:induction false} TreeHasDistinctHashes(index: map<Hash, BlockNode>, root: BlockNode, n: BlockNode)
    requires Tree(index, root) && Indexed(index, n)
    ensures DistinctHashes(n)
  {
    if n.Child? {
      TreeHasDistinctHashes(index, root, n.parent);
      if n.block.hash in HashIndexOf(n.parent) {
        HashIndexLists(n.parent, n.block.hash);
        var a := At(n.parent, HashIndexOf(n.parent)[n.block.hash]);
        AtHeight(n.parent, HashIndexOf(n.parent)[n.block.hash]);
        AncestorIndexed(index, root, n.parent, a);
      }
    }
  }

  lemma HeightIsFresh(n: BlockNode)
    requires n.Child?
    ensures Height(n) !in HeightIndexOf(n.parent)
  {
    HeightIndexLists(n.parent, Height(n));
  }

  lemma {:induction false} ElectionsGrow(elections: map<Hash, ElectionState>, h: Hash, es: ElectionState, n: BlockNode)
    requires ElectionsKnown(elections, n)
    ensures ElectionsKnown(elections[h := es], n)
  {
    if n.Child? { ElectionsGrow(elections, h, es, n.parent); }
  }

  predicate NoLegacyEntries(journal: map<Hash, seq<Coin>>) {
    forall h, c :: h in journal && c in journal[h] ==> c.height > 0
  }

  lemma {:induction false} JournalAboveGenesis(n: BlockNode)
    ensures NoLegacyEntries(JournalOf(n))
  {
    if n.Child? {
      JournalAboveGenesis(n.parent);
      UnspentAboveGenesis(n.parent);
      if Connectable(n) { JournalHasNoLegacyEntries(UtxosOf(n.parent), n.block, Height(n)); }
    }
  }

  /** Whatever chain is stored, neither the unspent set nor the journal holds anything of height
      zero, so disconnecting never meets an entry without a height. */
  lemma StoredAboveGenesis(db: Db, snapshot: BestState, tip: BlockNode)
    requires StoreMatches(db, snapshot, tip)
    ensures CreatedAfterGenesis(db.utxos) && NoLegacyEntries(db.journal)
  {
    UnspentAboveGenesis(tip);
    JournalAboveGenesis(tip);
  }

  // ----- the atomic database updates

  /** Everything connecting a block writes. */
  function ConnectTransaction(db: Db, state: BestState, view: Coins, stxos: seq<Coin>): Db {
    db.(best := BestRow(state.hash, state.height, state.totalTxns),
        elections := db.elections[state.hash := state.elect],
        hashIndex := db.hashIndex[state.hash := state.height],
        heightIndex := db.heightIndex[state.height := state.hash],
        utxos := view,
        journal := db.journal[state.hash := stxos])
  }

  /** Everything disconnecting the block with the given hash and height writes. */
  function DisconnectTransaction(db: Db, state: BestState, hash: Hash, height: nat, view: Coins): Db {
    db.(best := BestRow(state.hash, state.height, state.totalTxns),
        hashIndex := db.hashIndex - {hash},
        heightIndex := db.heightIndex - {height},
        utxos := view,
        journal := db.journal - {hash})
  }

  /** The unspent set with block b of the given height undone from its journal entry. */
  function Undone(db: Db, b: Block, height: nat): Coins {
    if b.hash in db.journal && |db.journal[b.hash]| == CountInputs(b.txs)
    then Disconnect(db.utxos, b, height, db.journal[b.hash]) else db.utxos
  }

  function StateFor(n: BlockNode, totalTxns: nat, elect: ElectionState): BestState {
    BestState(n.block.hash, Height(n), n.block.bits, NumTxns(n.block), totalTxns, elect)
  }

  lemma ConnectMatches(db: Db, snapshot: BestState, node: BlockNode, es: ElectionState)
    requires node.Child? && StoreMatches(db, snapshot, node.parent) && Connectable(node)
    ensures var state := StateFor(node, snapshot.totalTxns + NumTxns(node.block), es);
            StoreMatches(
              ConnectTransaction(db, state, Connect(db.utxos, node.block, Height(node)),
                                 JournalEntry(db.utxos, node.block, Height(node))),
              state, node)
  {
    hide Connect, JournalEntry, CanConnect;
    ElectionsGrow(db.elections, node.block.hash, es, node.parent);
  }

  lemma DisconnectMatches(db: Db, snapshot: BestState, node: BlockNode)
    requires node.Child? && StoreMatches(db, snapshot, node) && Connectable(node) && DistinctHashes(node)
    ensures var b, p := node.block, node.parent;
            && b.hash in db.journal && |db.journal[b.hash]| == CountInputs(b.txs)
            && p.block.hash in db.elections && snapshot.totalTxns >= NumTxns(b)
            && var state := StateFor(p, snapshot.totalTxns - NumTxns(b), db.elections[p.block.hash]);
               StoreMatches(
                 DisconnectTransaction(db, state, b.hash, Height(node), Undone(db, b, Height(node))),
                 state, p)
  {
    hide Connect, Disconnect, JournalEntry, CanConnect;
    RemovingTip(node);
    assert ElectionsKnown(db.elections, node.parent);
    DisconnectUndoesConnect(UtxosOf(node.parent), node.block, Height(node));
  }

  /** Connecting a block and disconnecting it again restores snapshot and database, but for the
      election state of the block, which is kept. */
  lemma DisconnectRestores(db: Db, snapshot: BestState, node: BlockNode, es: ElectionState)
    requires node.Child? && StoreMatches(db, snapshot, node.parent) && Connectable(node) && DistinctHashes(node)
    ensures var b, p, height := node.block, node.parent, Height(node);
            var up := StateFor(node, snapshot.totalTxns + NumTxns(b), es);
            var on := ConnectTransaction(db, up, Connect(db.utxos, b, height), JournalEntry(db.utxos, b, height));
            && p.block.hash in on.elections
            && var down := StateFor(p, up.totalTxns - NumTxns(b), on.elections[p.block.hash]);
            && down == snapshot
            && DisconnectTransaction(on, down, b.hash, height, Undone(on, b, height)) ==
               db.(elections := db.elections[b.hash := es])
  {
    hide Connect, Disconnect, JournalEntry, CanConnect;
    RemovingTip(node);
    HeightIsFresh(node);
    JournalLists(node.parent, node.block.hash);
    DisconnectUndoesConnect(UtxosOf(node.parent), node.block, Height(node));
  }

  lemma RemovingTip(node: BlockNode)
    requires node.Child? && DistinctHashes(node)
    ensures HashIndexOf(node) - {node.block.hash} == HashIndexOf(node.parent)
    ensures HeightIndexOf(node) - {Height(node)} == HeightIndexOf(node.parent)
    ensures JournalOf(node) - {node.block.hash} == JournalOf(node.parent)
  {
    hide JournalEntry, Connectable;
    HeightIsFresh(node);
    JournalLists(node.parent, node.block.hash);
  }
}
