/** The block chain instance: in-memory index, best-chain view, database and orphan pool,
    updated in place as blocks arrive. */
module BlockChains {
  import opened Options
  import opened Ledger
  import opened BlockTree
  import opened ChainViews
  import opened ChainRules
  import opened ChainStore
  import opened ChainSafety
  import opened OrphanPools

  // ----- how the parts of the state belong together

  predicate BlocksMatch(index: map<Hash, BlockNode>, blocks: map<Hash, Block>) {
    blocks.Keys == index.Keys && forall h :: h in index ==> blocks[h] == index[h].block
  }

  /** Rows of nodes that are not dirty are up to date. */
  predicate RowsMatch(flags: Flags, dirty: set<BlockNode>, rows: map<BlockNode, Status>) {
    && dirty <= flags.Keys && rows.Keys <= flags.Keys
    && forall n :: n in flags && n !in dirty ==> n in rows && rows[n] == flags[n]
  }

  ghost predicate Consistent(index: map<Hash, BlockNode>, flags: Flags, dirty: set<BlockNode>, db: Db,
                             snapshot: BestState, tip: BlockNode) {
    && Tree(index, Root(tip))
    && (forall n :: n in flags <==> Indexed(index, n))
    && Indexed(index, tip)
    && StoreMatches(db, snapshot, tip)
    && BlocksMatch(index, db.blocks)
    && RowsMatch(flags, dirty, db.rows)
  }

  function FlagsOf(flags: Flags, nodes: set<BlockNode>): map<BlockNode, Status>
    requires nodes <= flags.Keys
  {
    map n | n in nodes :: flags[n]
  }

  lemma FlushedRows(flags: Flags, dirty: set<BlockNode>, rows: map<BlockNode, Status>)
    requires RowsMatch(flags, dirty, rows)
    ensures rows + FlagsOf(flags, dirty) == flags
  {
  }

  /** What is stored for a new chain. */
  function GenesisDb(genesis: Block, es: ElectionState): Db {
    var g := Genesis(genesis);
    Db(map[g := DATA_STORED.Or(VALID)], map[genesis.hash := genesis], BestRow(genesis.hash, 0, NumTxns(genesis)),
       map[genesis.hash := 0], map[0 := genesis.hash], map[], map[], map[genesis.hash := es])
  }

  lemma GenesisConsistent(genesis: Block, es: ElectionState)
    ensures var g := Genesis(genesis);
            Consistent(map[genesis.hash := g], map[g := DATA_STORED.Or(VALID)], {}, GenesisDb(genesis, es),
                       BestState(genesis.hash, 0, genesis.bits, NumTxns(genesis), NumTxns(genesis), es), g)
  {
  }

  lemma ConnectConsistent(index: map<Hash, BlockNode>, flags: Flags, db: Db, snapshot: BestState,
                          node: BlockNode, es: ElectionState)
    requires node.Child? && Consistent(index, flags, {}, db, snapshot, node.parent)
    requires Indexed(index, node) && Connectable(node)
    ensures var state := StateFor(node, snapshot.totalTxns + NumTxns(node.block), es);
            Consistent(index, flags, {},
              ConnectTransaction(db, state, Connect(db.utxos, node.block, Height(node)),
                                 JournalEntry(db.utxos, node.block, Height(node))),
              state, node)
  {
    hide Connect, JournalEntry, CanConnect, StoreMatches;
    ChildRoot(node.parent, node.block);
    ConnectMatches(db, snapshot, node, es);
  }

  lemma DisconnectConsistent(index: map<Hash, BlockNode>, flags: Flags, dirty: set<BlockNode>, db: Db,
                             snapshot: BestState, node: BlockNode)
    requires node.Child? && Consistent(index, flags, dirty, db, snapshot, node) && Connectable(node)
    ensures var b, p := node.block, node.parent;
            && p.block.hash in db.elections && p.block.hash in db.blocks && db.blocks[p.block.hash] == p.block
            && snapshot.totalTxns >= NumTxns(b)
            && var state := StateFor(p, snapshot.totalTxns - NumTxns(b), db.elections[p.block.hash]);
               Consistent(index, flags, {},
                 DisconnectTransaction(db.(rows := flags), state, b.hash, Height(node), Undone(db, b, Height(node))),
                 state, p)
  {
    hide Connect, JournalEntry, CanConnect, StoreMatches;
    ChildRoot(node.parent, node.block);
    TreeHasDistinctHashes(index, Root(node), node);
    FlushConsistent(index, flags, dirty, db, snapshot, node);
    DisconnectMatches(db.(rows := flags), snapshot, node);
  }

  lemma FlushConsistent(index: map<Hash, BlockNode>, flags: Flags, dirty: set<BlockNode>, db: Db,
                        snapshot: BestState, tip: BlockNode)
    requires Consistent(index, flags, dirty, db, snapshot, tip)
    ensures dirty <= flags.Keys && db.rows + FlagsOf(flags, dirty) == flags
    ensures Consistent(index, flags, {}, db.(rows := flags), snapshot, tip)
  {
    FlushedRows(flags, dirty, db.rows);
  }

  lemma SetConsistent(index: map<Hash, BlockNode>, flags: Flags, dirty: set<BlockNode>, db: Db,
                      snapshot: BestState, tip: BlockNode, n: BlockNode, s: Status)
    requires Consistent(index, flags, dirty, db, snapshot, tip) && n in flags
    ensures Consistent(index, Set(flags, n, s), dirty + {n}, db, snapshot, tip)
  {
    hide StoreMatches, Tree;
  }

  /** In a consistent state a hash match with the tip is the tip itself. */
  lemma ParentIsTip(index: map<Hash, BlockNode>, flags: Flags, dirty: set<BlockNode>, db: Db, snapshot: BestState,
                    tip: BlockNode, node: BlockNode)
    requires Consistent(index, flags, dirty, db, snapshot, tip) && Indexed(index, node) && node.Child?
    ensures node.block.prev == tip.block.hash <==> node.parent == tip
    ensures node.block.hash == tip.block.hash <==> node == tip
    ensures Indexed(index, node.parent) && node.parent in flags && Root(node) == Root(tip)
  {
  }

  class BlockChain {
    const bestChain: ChainView
    const pool: OrphanPool

    // the block index
    var index: map<Hash, BlockNode>
    var flags: Flags
    var dirty: set<BlockNode>

    var db: Db
    var snapshot: BestState

    ghost predicate Stored()
      reads this, bestChain, bestChain.nodes
    {
      && bestChain.Valid() && bestChain.length > 0
      && Consistent(index, flags, dirty, db, snapshot, TipNode())
    }

    /** Between calls: consistent, with sound flags. */
    ghost predicate Valid()
      reads this, bestChain, bestChain.nodes
    {
      Stored() && Sound(CoreOf())
    }

    function TipNode(): BlockNode
      requires bestChain.Valid() && bestChain.length > 0
      reads this, bestChain, bestChain.nodes
    {
      bestChain.Tip().value
    }

    ghost function CoreOf(): Core
      requires bestChain.Valid() && bestChain.length > 0
      reads this, bestChain, bestChain.nodes
    {
      Core(index, flags, TipNode())
    }

    /** A fresh chain holding only the genesis block, whose coinbase is not spendable. */
    constructor (genesis: Block, steward: seq<Byte>, ghost blockOf: Hash -> Block)
      ensures Valid() && fresh(bestChain) && fresh(bestChain.nodes) && fresh(pool)
      ensures PoolValid() && pool.orphans == map[] && pool.blockOf == blockOf
      ensures CoreOf() == Initial(genesis) && dirty == {} && db.rows == flags
    {
      var es := ElectionState(steward, 0);
      var g := Genesis(genesis);
      var status := DATA_STORED.Or(VALID);
      var view := new ChainView();
      bestChain := view;
      pool := new OrphanPool(blockOf);
      index := map[genesis.hash := g];
      flags := map[g := status];
      dirty := {};
      db := GenesisDb(genesis, es);
      snapshot := BestState(genesis.hash, 0, genesis.bits, NumTxns(genesis), NumTxns(genesis), es);
      new;
      GenesisConsistent(genesis, es);
      InitialIsSound(genesis);
      hide Consistent, Sound;
      bestChain.SetTip(Some(g));
    }

    /** The pool is well formed, holds at most 101 blocks and none that is already in the index. */
    ghost predicate PoolValid()
      reads this, pool
    {
      pool.Valid() && pool.Capped() && forall h :: h in pool.orphans ==> h !in index
    }

    /** No pooled block could be adopted: its parent is unknown, known to be invalid, or
        among those still to be processed. */
    ghost predicate NoneAdoptable(pending: seq<Hash>)
      reads this, pool
    {
      AllWait(pool.orphans, index, flags, pending)
    }

    // ----- the block index

    method SetStatusFlags(n: BlockNode, s: Status)
      requires n in flags
      modifies `flags, `dirty
      ensures flags == Set(old(flags), n, s) && dirty == old(dirty) + {n}
      ensures old(Stored()) ==> Stored()
    {
      hide Consistent;
      if Stored() { SetConsistent(index, flags, dirty, db, snapshot, TipNode(), n, s); }
      flags := flags[n := flags[n].Or(s)];
      dirty := dirty + {n};
    }

    /** Writes the rows of all dirty nodes. */
    method FlushToDB()
      requires dirty <= flags.Keys
      modifies `db, `dirty
      ensures dirty == {} && db == old(db).(rows := old(db).rows + FlagsOf(flags, old(dirty)))
      ensures old(Stored()) ==> Stored() && db.rows == flags
    {
      hide Consistent, ChainView.Valid;
      if Stored() { FlushConsistent(index, flags, dirty, db, snapshot, TipNode()); }
      var todo, rows := dirty, db.rows;
      while todo != {}
        invariant todo <= dirty
        invariant rows == db.rows + FlagsOf(flags, dirty - todo)
        decreases todo
      {
        var n :| n in todo;
        rows := rows[n := flags[n]];
        todo := todo - {n};
      }
      assert dirty - todo == dirty;
      db := db.(rows := rows);
      dirty := {};
    }

    // ----- connecting and disconnecting one block

    /** Makes node the tip.  The caller hands in the unspent set after the block and the
        outputs it spends.  Fails, changing nothing, when the block does not extend the
        tip. */
    method ConnectBlock(node: BlockNode, block: Block, view: Coins, stxos: seq<Coin>, es: ElectionState)
      returns (ok: bool)
      requires Stored() && node.Child? && Indexed(index, node) && block == node.block
      requires node.parent == TipNode() ==>
                 && Connectable(node) && view == Connect(db.utxos, block, Height(node))
                 && stxos == JournalEntry(db.utxos, block, Height(node))
      modifies `db, `dirty, `snapshot, bestChain, bestChain.nodes
      ensures bestChain.nodes == old(bestChain.nodes) || fresh(bestChain.nodes)
      ensures ok == (node.parent == old(TipNode()))
      ensures !ok ==> Stored() && db == old(db) && dirty == old(dirty)
      ensures !ok ==> snapshot == old(snapshot) && TipNode() == old(TipNode())
      ensures ok ==> Stored() && TipNode() == node && dirty == {} && db.rows == flags
      ensures ok ==> db.blocks == old(db.blocks) && db.elections == old(db.elections)[block.hash := es]
    {
      hide Consistent, Connect, JournalEntry, CanConnect, ChainView.Valid, ChainView.View;
      ghost var tip := TipNode();
      ParentIsTip(index, flags, dirty, db, snapshot, tip, node);
      if block.prev != TipNode().block.hash || |stxos| != CountInputs(block.txs) {
        return false;
      }
      FlushConsistent(index, flags, dirty, db, snapshot, tip);
      FlushToDB();
      ConnectConsistent(index, flags, db, snapshot, node, es);
      var state := StateFor(node, snapshot.totalTxns + NumTxns(block), es);
      db := ConnectTransaction(db, state, view, stxos);
      bestChain.SetTip(Some(node));
      snapshot := state;
      ok := true;
    }

    /** Makes the tip's parent the tip.  Fails, changing nothing, when node is not the tip. */
    method DisconnectBlock(node: BlockNode, block: Block, view: Coins) returns (ok: bool)
      requires Stored() && node.Child? && Indexed(index, node) && block == node.block
      requires node == TipNode() ==> Connectable(node) && view == Undone(db, block, Height(node))
      modifies `db, `dirty, `snapshot, bestChain, bestChain.nodes
      ensures bestChain.nodes == old(bestChain.nodes) || fresh(bestChain.nodes)
      ensures ok == (node == old(TipNode()))
      ensures !ok ==> Stored() && db == old(db) && dirty == old(dirty)
      ensures !ok ==> snapshot == old(snapshot) && TipNode() == old(TipNode())
      ensures ok ==> Stored() && TipNode() == node.parent && dirty == {} && db.rows == flags
      ensures ok ==> db.blocks == old(db.blocks) && db.elections == old(db.elections)
    {
      hide Consistent, Undone, CanConnect, ChainView.Valid, ChainView.View;
      ghost var tip := TipNode();
      ParentIsTip(index, flags, dirty, db, snapshot, tip, node);
      if block.hash != TipNode().block.hash {
        return false;
      }
      FlushConsistent(index, flags, dirty, db, snapshot, tip);
      DisconnectConsistent(index, flags, dirty, db, snapshot, node);
      var prev := node.parent;
      var prevBlock, prevElect := db.blocks[prev.block.hash], db.elections[prev.block.hash];
      FlushToDB();
      var state := BestState(prev.block.hash, Height(prev), prev.block.bits, NumTxns(prevBlock),
                             snapshot.totalTxns - NumTxns(block), prevElect);
      db := DisconnectTransaction(db, state, block.hash, Height(node), view);
      bestChain.SetTip(Some(prev));
      snapshot := state;
      ok := true;
    }

    // ----- reorganizing

    method MarkAll(nodes: seq<BlockNode>, s: Status)
      requires Stored() && forall n :: n in nodes ==> n in flags
      modifies `flags, `dirty
      ensures flags == SetAll(old(flags), nodes, s) && flags.Keys == old(flags.Keys) && Stored()
    {
      hide Consistent, ChainView.Valid;
      for i := 0 to |nodes|
        invariant Stored() && flags.Keys == old(flags.Keys)
        invariant SetAll(flags, nodes[i..], s) == SetAll(old(flags), nodes, s)
      {
        assert nodes[i..][1..] == nodes[i + 1..];
        SetStatusFlags(nodes[i], s);
      }
    }

    /** The nodes to detach and attach so that node becomes the tip; flags node's chain
        instead when it is known to be invalid. */
    method GetReorganizeNodes(node: BlockNode) returns (detach: seq<BlockNode>, attach: seq<BlockNode>)
      requires Stored() && node.Child? && node in flags && Root(node) == Root(TipNode())
      modifies `flags, `dirty
      ensures Stored() && (flags, detach, attach) == Plan(old(CoreOf()), node)
    {
      hide Consistent, ChainView.Valid, Above, Below, FirstInvalid;
      NodeIndexed(node);
      if flags[node.parent].KnownInvalid() {
        SetStatusFlags(node, INVALID_ANCESTOR);
        return [], [];
      }
      var found := bestChain.FindFork(Some(node));
      var fork := found.value;
      var n;
      n, attach := CollectAttach(node, fork);
      if n != fork {
        AttachIndexed(n, node);
        MarkAll(attach, INVALID_ANCESTOR);
        return [], [];
      }
      detach := CollectDetach(fork);
    }

    /** Walks from node down to the fork point, stopping early at a known-invalid node. */
    method CollectAttach(node: BlockNode, fork: BlockNode) returns (n: BlockNode, attach: seq<BlockNode>)
      requires Stored() && node in flags && IsAncestor(fork, node)
      ensures IsAncestor(n, node) && attach == Above(n, node)
      ensures var bad := FirstInvalid(flags, node, fork); if bad.Some? then n == bad.value && n != fork else n == fork
    {
      hide Consistent, ChainView.Valid;
      n, attach := node, [];
      while n != fork && !flags[n].KnownInvalid()
        invariant IsAncestor(fork, n) && IsAncestor(n, node) && n in flags
        invariant attach == Above(n, node)
        invariant FirstInvalid(flags, node, fork) == FirstInvalid(flags, n, fork)
        decreases Height(n)
      {
        AboveSplit(n, node);
        NodeIndexed(n);
        attach := [n] + attach;
        n := n.parent;
      }
    }

    method CollectDetach(fork: BlockNode) returns (detach: seq<BlockNode>)
      requires bestChain.Valid() && bestChain.length > 0 && IsAncestor(fork, TipNode())
      ensures detach == Below(TipNode(), fork)
    {
      detach := [];
      var n := TipNode();
      while n != fork
        invariant IsAncestor(fork, n) && detach + Below(n, fork) == Below(TipNode(), fork)
        decreases Height(n)
      {
        detach := detach + [n];
        n := n.parent;
      }
    }

    lemma NodeIndexed(n: BlockNode)
      requires Stored() && n in flags && n.Child?
      ensures n.parent in flags && Root(n) == Root(TipNode())
    {
    }

    lemma AttachIndexed(low: BlockNode, n: BlockNode)
      requires Stored() && n in flags && IsAncestor(low, n)
      ensures forall a :: a in Above(low, n) ==> a in flags && Indexed(index, a)
    {
      forall a | a in Above(low, n)
        ensures a in flags && Indexed(index, a)
      {
        AboveAncestor(low, n, a);
        AncestorIndexed(index, Root(TipNode()), n, a);
      }
    }

    lemma BlockStored(n: BlockNode)
      requires Stored() && n in flags
      ensures Indexed(index, n) && n.block.hash in db.blocks && db.blocks[n.block.hash] == n.block
    {
    }

    /** The stored blocks of the given nodes. */
    method LoadBlocks(nodes: seq<BlockNode>) returns (blocks: seq<Block>)
      requires Stored() && forall n :: n in nodes ==> n in flags
      ensures |blocks| == |nodes| && forall i :: 0 <= i < |nodes| ==> blocks[i] == nodes[i].block
    {
      hide Consistent, ChainView.Valid;
      blocks := [];
      for i := 0 to |nodes|
        invariant |blocks| == i && forall j :: 0 <= j < i ==> blocks[j] == nodes[j].block
      {
        BlockStored(nodes[i]);
        blocks := blocks + [db.blocks[nodes[i].block.hash]];
      }
    }

    /** Checks every node to attach before anything is changed on the chain. */
    method CheckAttachNodes(attach: seq<BlockNode>, connect: BlockNode -> Verdict) returns (outcome: Outcome)
      requires Stored() && forall n :: n in attach ==> n in flags
      modifies `flags, `dirty
      ensures Stored() && flags.Keys == old(flags.Keys)
      ensures (flags, outcome) == CheckAttach(old(flags), attach, connect)
    {
      hide Consistent, ChainView.Valid;
      for i := 0 to |attach|
        invariant Stored() && flags.Keys == old(flags.Keys)
        invariant CheckAttach(flags, attach[i..], connect) == CheckAttach(old(flags), attach, connect)
      {
        var n := attach[i];
        assert attach[i..][0] == n && attach[i..][1..] == attach[i + 1..];
        if flags[n].valid { continue; }
        match connect(n) {
          case Accept =>
            SetStatusFlags(n, VALID);
          case Reject =>
            SetStatusFlags(n, VALIDATE_FAILED);
            MarkAll(attach[i + 1..], INVALID_ANCESTOR);
            return RuleError;
          case Fault =>
            return Faulted;
        }
      }
      outcome := Accepted(true);
    }

    lemma UtxosAreTips()
      requires Stored()
      ensures db.utxos == UtxosOf(TipNode())
    {
    }

    /** Disconnects the nodes from the tip down to the fork point. */
    method DetachAll(detach: seq<BlockNode>, ghost fork: BlockNode)
      requires Stored() && IsAncestor(fork, TipNode()) && detach == Below(TipNode(), fork)
      requires forall n :: n in detach ==> n in flags && Connectable(n)
      modifies `db, `dirty, `snapshot, bestChain, bestChain.nodes
      ensures bestChain.nodes == old(bestChain.nodes) || fresh(bestChain.nodes)
      ensures Stored() && TipNode() == fork && db.elections == old(db.elections)
    {
      hide Consistent, ChainView.Valid, ChainView.View, Connectable, Undone;
      for i := 0 to |detach|
        invariant bestChain.nodes == old(bestChain.nodes) || fresh(bestChain.nodes)
        invariant Stored() && db.elections == old(db.elections)
        invariant IsAncestor(fork, TipNode()) && detach[i..] == Below(TipNode(), fork)
      {
        var n := detach[i];
        assert n == detach[i..][0] && detach[i..][1..] == detach[i + 1..];
        BelowEnds(TipNode(), fork);
        BelowAncestor(TipNode(), fork, n);
        BlockStored(n);
        var block := db.blocks[n.block.hash];
        var ok := DisconnectBlock(n, block, Undone(db, block, Height(n)));
        assert ok;
      }
      assert detach[|detach|..] == [];
    }

    /** Connects the nodes from the tip up to node. */
    method AttachAll(attach: seq<BlockNode>, blocks: seq<Block>, elect: BlockNode -> ElectionState,
                     ghost node: BlockNode)
      requires Stored() && IsAncestor(TipNode(), node) && attach == Above(TipNode(), node)
      requires forall n :: n in attach ==> n in flags && Connectable(n)
      requires |blocks| == |attach| && forall i :: 0 <= i < |attach| ==> blocks[i] == attach[i].block
      modifies `db, `dirty, `snapshot, bestChain, bestChain.nodes
      ensures bestChain.nodes == old(bestChain.nodes) || fresh(bestChain.nodes)
      ensures Stored() && TipNode() == node
    {
      hide Consistent, ChainView.Valid, ChainView.View, Connect, JournalEntry;
      for i := 0 to |attach|
        invariant bestChain.nodes == old(bestChain.nodes) || fresh(bestChain.nodes)
        invariant Stored()
        invariant IsAncestor(TipNode(), node) && attach[i..] == Above(TipNode(), node)
      {
        var n, block := attach[i], blocks[i];
        assert n == attach[i..][0] && attach[i..][1..] == attach[i + 1..];
        AboveStarts(TipNode(), node);
        BlockStored(n);
        UtxosAreTips();
        var stxos := JournalEntry(db.utxos, block, Height(n));
        var ok := ConnectBlock(n, block, Connect(db.utxos, block, Height(n)), stxos, elect(n));
        assert ok;
      }
      assert attach[|attach|..] == [];
    }

    /** Whether the lists fail the sanity checks on the current tip and the fork point. */
    ghost predicate ListsMismatch(top: BlockNode, low: BlockNode, base: BlockNode, node: BlockNode)
      requires bestChain.Valid() && bestChain.length > 0
      reads this, bestChain, bestChain.nodes
    {
      top != low && (top != TipNode() || (base != node && base != low))
    }

    /** There is nothing to detach, and what is to be attached does not start at the tip.  The
        sanity checks let this pass; connecting the first block fails. */
    ghost predicate Astray(top: BlockNode, low: BlockNode, base: BlockNode, node: BlockNode)
      requires bestChain.Valid() && bestChain.length > 0
      reads this, bestChain, bestChain.nodes
    {
      top == low && base != node && base != TipNode()
    }

    /** Detaches the blocks above `low` and attaches those above `base` up to `node`.
        Everything to attach is checked first; unless all of it passes, only flags change.
        Lists for another tip or with different fork points are refused. */
    method ReorganizeChain(detach: seq<BlockNode>, attach: seq<BlockNode>, connect: BlockNode -> Verdict,
                           elect: BlockNode -> ElectionState,
                           ghost top: BlockNode, ghost low: BlockNode, ghost base: BlockNode, node: BlockNode)
      returns (outcome: Outcome, asserted: bool)
      requires Valid() && Honest(connect)
      requires top in flags && IsAncestor(low, top) && detach == Below(top, low)
      requires node in flags && IsAncestor(base, node) && attach == Above(base, node)
      modifies `flags, `db, `dirty, `snapshot, bestChain, bestChain.nodes
      ensures bestChain.nodes == old(bestChain.nodes) || fresh(bestChain.nodes)
      ensures Stored()
      ensures asserted == old(ListsMismatch(top, low, base, node))
      ensures asserted || (top == low && base == node) ==>
                && CoreOf() == old(CoreOf()) && db == old(db) && dirty == old(dirty) && snapshot == old(snapshot)
                && outcome == if asserted then Faulted else Accepted(true)
      ensures !asserted && !(top == low && base == node) ==>
                && flags == CheckAttach(old(flags), attach, connect).0
                && outcome == AttachOutcome(CheckAttach(old(flags), attach, connect).1,
                                            old(Astray(top, low, base, node)))
                && (outcome.Accepted? ==> TipNode() == if base == node then low else node)
                && (!outcome.Accepted? ==> TipNode() == old(TipNode()) && db == old(db) && snapshot == old(snapshot))
    {
      hide Consistent, Sound, ChainView.Valid, ChainView.View, Connectable, CheckAttach;
      if |detach| == 0 && |attach| == 0 {
        return Accepted(true), false;
      }
      var mismatch := CheckLists(detach, attach, top, low, base, node);
      if mismatch { return Faulted, true; }
      asserted := false;
      AttachIndexed(base, node);
      AboveAscends(base, node);
      SoundFlags();
      AttachConnectable(flags, attach, connect);
      DetachConnectable(low);
      var attachBlocks := LoadBlocks(attach);
      outcome := CheckAttachNodes(attach, connect);
      if !outcome.Accepted? { return; }
      var ok := Rebuild(detach, attach, attachBlocks, elect, top, low, base, node);
      if !ok { outcome := Faulted; }
    }

    /** The second phase: detaches, then attaches. */
    method Rebuild(detach: seq<BlockNode>, attach: seq<BlockNode>, blocks: seq<Block>,
                   elect: BlockNode -> ElectionState,
                   ghost top: BlockNode, ghost low: BlockNode, ghost base: BlockNode, ghost node: BlockNode)
      returns (ok: bool)
      requires Stored() && IsAncestor(low, top) && detach == Below(top, low) && !ListsMismatch(top, low, base, node)
      requires node in flags && IsAncestor(base, node) && attach == Above(base, node)
      requires forall n :: n in detach || n in attach ==> n in flags && Connectable(n)
      requires |blocks| == |attach| && forall i :: 0 <= i < |attach| ==> blocks[i] == attach[i].block
      modifies `db, `dirty, `snapshot, bestChain, bestChain.nodes
      ensures bestChain.nodes == old(bestChain.nodes) || fresh(bestChain.nodes)
      ensures Stored() && ok == !old(Astray(top, low, base, node))
      ensures ok ==> TipNode() == if base != node then node else if top != low then low else old(TipNode())
      ensures !ok ==> TipNode() == old(TipNode()) && db == old(db) && snapshot == old(snapshot)
    {
      hide Consistent, ChainView.Valid, ChainView.View, Connectable;
      if |detach| != 0 {
        DetachAll(detach, low);
      }
      if |attach| != 0 {
        FirstToAttach(base, node);
        if attach[0].parent.block.hash != TipNode().block.hash { return false; }
        AttachAll(attach, blocks, elect, node);
      }
      ok := true;
    }

    lemma FirstToAttach(base: BlockNode, node: BlockNode)
      requires Stored() && node in flags && IsAncestor(base, node) && base != node
      ensures Above(base, node)[0].Child? && Above(base, node)[0].parent == base
      ensures base.block.hash == TipNode().block.hash <==> base == TipNode()
    {
      AboveStarts(base, node);
      AncestorIndexed(index, Root(TipNode()), node, base);
    }

    /** The sanity checks on the lists. */
    method CheckLists(detach: seq<BlockNode>, attach: seq<BlockNode>,
                      ghost top: BlockNode, ghost low: BlockNode, ghost base: BlockNode, ghost node: BlockNode)
      returns (mismatch: bool)
      requires Stored()
      requires top in flags && IsAncestor(low, top) && detach == Below(top, low)
      requires node in flags && IsAncestor(base, node) && attach == Above(base, node)
      ensures mismatch == ListsMismatch(top, low, base, node)
    {
      ListEnds(top, low, base, node);
      if |detach| != 0 && detach[0].block.hash != TipNode().block.hash {
        return true;
      }
      mismatch := |attach| != 0 && |detach| != 0
                  && attach[0].parent.block.hash != detach[|detach| - 1].parent.block.hash;
    }

    lemma ListEnds(top: BlockNode, low: BlockNode, base: BlockNode, node: BlockNode)
      requires Stored() && top in flags && IsAncestor(low, top) && node in flags && IsAncestor(base, node)
      ensures top.block.hash == TipNode().block.hash <==> top == TipNode()
      ensures low.block.hash == base.block.hash <==> low == base
      ensures top != low ==> Below(top, low)[0] == top
      ensures top != low ==> var d := Below(top, low); d[|d| - 1].Child? && d[|d| - 1].parent == low
      ensures base != node ==> Above(base, node)[0].Child? && Above(base, node)[0].parent == base
    {
      AncestorIndexed(index, Root(TipNode()), top, low);
      AncestorIndexed(index, Root(TipNode()), node, base);
      if top != low { BelowEnds(top, low); }
      if base != node { AboveStarts(base, node); }
    }

    lemma SoundFlags()
      requires Valid()
      ensures FlagsSound(flags)
    {
    }

    lemma DetachConnectable(low: BlockNode)
      requires Valid()
      ensures IsAncestor(low, TipNode()) ==> forall n :: n in Below(TipNode(), low) ==> n in flags && Connectable(n)
    {
      if IsAncestor(low, TipNode()) {
        forall n | n in Below(TipNode(), low)
          ensures n in flags && Connectable(n)
        {
          BelowAncestor(TipNode(), low, n);
          AllValidAt(flags, TipNode(), n);
        }
      }
    }

    // ----- choosing the best chain

    /** Connects node, whose parent is the tip.  With fastAdd, or when node is already known
        to be valid, the connection checks are skipped. */
    method ExtendTip(node: BlockNode, block: Block, fastAdd: bool, connect: BlockNode -> Verdict, es: ElectionState)
      returns (outcome: Outcome)
      requires Stored() && node.Child? && node in flags && block == node.block && node.parent == TipNode()
      requires Honest(connect) && dirty == {}
      modifies `flags, `db, `dirty, `snapshot, bestChain, bestChain.nodes
      ensures bestChain.nodes == old(bestChain.nodes) || fresh(bestChain.nodes)
      ensures Stored() && dirty == {}
      ensures (CoreOf(), outcome) == ConnectBest(old(CoreOf()), node, fastAdd, connect)
      ensures !outcome.Accepted? ==> snapshot == old(snapshot) && db == old(db).(rows := db.rows)
    {
      hide Consistent, Connect, JournalEntry, CanConnect, ChainView.Valid, ChainView.View;
      UtxosAreTips();
      BlockStored(node);
      var skip := fastAdd || flags[node].valid;
      if !skip {
        var verdict := connect(node);
        if verdict == Fault { return Faulted; }
        SetStatusFlags(node, if verdict == Accept then VALID else VALIDATE_FAILED);
        FlushToDB();
        if verdict == Reject { return RuleError; }
      } else if !CanConnect(db.utxos, block, Height(node)) {
        return Faulted;
      }
      var stxos := JournalEntry(db.utxos, block, Height(node));
      var ok := ConnectBlock(node, block, Connect(db.utxos, block, Height(node)), stxos, es);
      assert ok;
      if skip {
        SetStatusFlags(node, VALID);
        FlushToDB();
      }
      outcome := Accepted(true);
    }

    /** Makes node's chain the best chain if it has strictly more work. */
    method ConnectBestChain(node: BlockNode, block: Block, fastAdd: bool, connect: BlockNode -> Verdict,
                            elect: BlockNode -> ElectionState) returns (outcome: Outcome)
      requires Valid() && NewLeaf(CoreOf(), node) && block == node.block && Root(node) == Root(TipNode())
      requires Honest(connect) && dirty == {}
      modifies `flags, `db, `dirty, `snapshot, bestChain, bestChain.nodes
      ensures bestChain.nodes == old(bestChain.nodes) || fresh(bestChain.nodes)
      ensures Valid() && dirty == {}
      ensures (CoreOf(), outcome) == ConnectBest(old(CoreOf()), node, fastAdd, connect)
    {
      hide Consistent, Sound, ChainView.Valid, ChainView.View, Fork, WorkSum, Plan, CheckAttach, Connectable;
      ConnectBestKeeps(CoreOf(), node, fastAdd, connect);
      BlockStored(node);
      ParentIsTip(index, flags, dirty, db, snapshot, TipNode(), node);
      if block.prev == TipNode().block.hash {
        outcome := ExtendTip(node, block, fastAdd, connect, elect(node));
        return;
      }
      if WorkSum(node) <= WorkSum(TipNode()) {
        return Accepted(false);
      }
      outcome := SwitchTo(node, connect, elect);
    }

    /** Reorganizes to node's chain and writes the changed flags. */
    method SwitchTo(node: BlockNode, connect: BlockNode -> Verdict, elect: BlockNode -> ElectionState)
      returns (outcome: Outcome)
      requires Valid() && NewLeaf(CoreOf(), node) && Root(node) == Root(TipNode()) && WorkSum(node) > WorkSum(TipNode())
      requires Honest(connect)
      modifies `flags, `db, `dirty, `snapshot, bestChain, bestChain.nodes
      ensures bestChain.nodes == old(bestChain.nodes) || fresh(bestChain.nodes)
      ensures Stored() && dirty == {}
      ensures (CoreOf(), outcome) == Reorganize(old(CoreOf()), node, connect)
      ensures !outcome.Accepted? ==> snapshot == old(snapshot) && db == old(db).(rows := db.rows)
    {
      hide Consistent, Sound, ChainView.Valid, ChainView.View, CheckAttach, Connectable, Plan, Reorganize, Below, Above;
      ghost var c := CoreOf();
      PlanIsSound(c, node);
      PlanLists(c, node, connect);
      var detach, attach := GetReorganizeNodes(node);
      ghost var fork := Fork(c.tip, node);
      var asserted;
      if detach == [] && attach == [] {
        outcome, asserted := ReorganizeChain(detach, attach, connect, elect, c.tip, c.tip, node, node);
      } else {
        outcome, asserted := ReorganizeChain(detach, attach, connect, elect, c.tip, fork, fork, node);
      }
      assert !asserted;
      FlushConsistent(index, flags, dirty, db, snapshot, TipNode());
      FlushToDB();
    }

    // ----- accepting blocks

    /** Adds the block to the database and the index and lets it compete for the best
        chain. */
    method MaybeAcceptBlock(block: Block, height: Option<nat>, fastAdd: bool, context: Verdict,
                            connect: BlockNode -> Verdict, elect: BlockNode -> ElectionState)
      returns (outcome: Outcome)
      requires Valid() && dirty == {} && block.hash !in index && Honest(connect)
      modifies `index, `flags, `db, `dirty, `snapshot, bestChain, bestChain.nodes
      ensures bestChain.nodes == old(bestChain.nodes) || fresh(bestChain.nodes)
      ensures Valid() && dirty == {}
      ensures (CoreOf(), outcome) == MaybeAccept(old(CoreOf()), Event(block, height, fastAdd, context, connect))
    {
      hide Consistent, ChainView.Valid, ChainView.View, ConnectBest, AllValid, HasFailed, Connectable;
      if block.prev !in index { return RuleError; }
      var prev := index[block.prev];
      if flags[prev].KnownInvalid() { return RuleError; }
      if height.Some? && height.value != Height(prev) + 1 { return RuleError; }
      if context == Reject { return RuleError; }
      if context == Fault { return Faulted; }
      var node := Child(prev, block);
      ChildRoot(prev, block);
      NewNodeIsLeaf(CoreOf(), prev, block);
      Insert(node);
      outcome := ConnectBestChain(node, block, fastAdd, connect, elect);
    }

    /** Stores a new node's block and row. */
    method Insert(node: BlockNode)
      requires Stored() && dirty == {} && node.Child? && node.block.hash !in index
      requires Indexed(index, node.parent) && node.block.prev == node.parent.block.hash
      modifies `index, `flags, `db, `dirty
      ensures Stored() && dirty == {} && CoreOf() == AddNode(old(CoreOf()), node)
    {
      hide Consistent, ChainView.Valid;
      InsertConsistent(index, flags, db, snapshot, TipNode(), node);
      db := db.(blocks := db.blocks[node.block.hash := node.block]);
      index := index[node.block.hash := node];
      flags := flags[node := DATA_STORED];
      dirty := {node};
      FlushToDB();
    }

    method BlockExists(hash: Hash) returns (exists_: bool)
      requires Stored()
      ensures exists_ == (hash in index)
    {
      if hash in index { return true; }
      exists_ := hash in db.blocks && hash in db.hashIndex;
    }

    /** The current state is reached from `start` by offering the given blocks. */
    ghost predicate Reached(start: Core, events: seq<Event>)
      requires bestChain.Valid() && bestChain.length > 0
      reads this, bestChain, bestChain.nodes
    {
      Sound(start) && (forall e :: e in events ==> Honest(e.connect)) && CoreOf() == Run(start, events)
    }

    /** No indexed block is heavier than the tip unless its chain is known to be invalid. */
    ghost predicate Best()
      reads this, bestChain, bestChain.nodes
    {
      bestChain.Valid() && bestChain.length > 0 && MostWork(CoreOf())
    }

    /** Everything that holds between the steps of processing orphans. */
    ghost predicate Ready(start: Core, events: seq<Event>)
      reads this, bestChain, bestChain.nodes, pool
    {
      Valid() && dirty == {} && PoolValid() && Reached(start, events)
    }

    /** In any state, nothing is adoptable but children of the pooled blocks' own parents. */
    lemma SomethingCovers() returns (left: seq<Hash>)
      ensures NoneAdoptable(left)
    {
      left := ParentsOf(pool.orphans);
    }

    /** Takes one orphan out of the pool and offers it to the chain. */
    method AdoptOne(o: Orphan, fastAdd: bool, context: Verdict, connect: BlockNode -> Verdict,
                    elect: BlockNode -> ElectionState, ghost pending: seq<Hash>,
                    ghost start: Core, ghost events: seq<Event>) returns (outcome: Outcome, ghost events': seq<Event>)
      requires Ready(start, events) && NoneAdoptable(pending) && Honest(connect) && FaultsLast(start, events, false)
      requires o.block.hash in pool.orphans && pool.orphans[o.block.hash] == o
      modifies `index, `flags, `db, `dirty, `snapshot, bestChain, bestChain.nodes, pool
      ensures bestChain.nodes == old(bestChain.nodes) || fresh(bestChain.nodes)
      ensures Ready(start, events') && NoneAdoptable(pending + [o.block.hash])
      ensures old(Best()) && !outcome.Faulted? ==> Best()
      ensures pool.orphans == old(pool.orphans) - {o.block.hash}
      ensures events' == events + [Event(o.block, o.height, fastAdd, context, connect)]
      ensures FaultsLast(start, events', outcome.Faulted?)
    {
      hide MostWork, Consistent, Sound, ChainView.Valid, ChainView.View, Run, Honest, MaybeAccept, Agree, FaultsLast;
      ghost var e := Event(o.block, o.height, fastAdd, context, connect);
      ghost var c := CoreOf();
      MaybeAcceptKeeps(c, e);
      RejectedIsFlagged(c, e);
      RunExtends(start, events, e);
      FaultsLastExtends(start, events, e);
      events' := events + [e];
      pool.RemoveOrphanBlock(o);
      outcome := MaybeAcceptBlock(o.block, o.height, fastAdd, context, connect, elect);
      forall h | h in pool.orphans
        ensures Waiting(index, flags, pool.orphans[h].block.prev, pending + [o.block.hash])
      {
        WaitingGrows(c, CoreOf(), o.block.hash, pool.orphans[h].block.prev, pending);
      }
    }

    /** Adopts every orphan whose parent is h, queueing each of them. */
    method AdoptChildren(h: Hash, queue: seq<Hash>, fastAdd: bool, context: Block -> Verdict,
                         connect: BlockNode -> Verdict, elect: BlockNode -> ElectionState,
                         ghost left: seq<Hash>, ghost start: Core, ghost events: seq<Event>)
      returns (faulted: bool, queue': seq<Hash>, ghost events': seq<Event>)
      requires Ready(start, events) && NoneAdoptable(left + [h] + queue) && Honest(connect)
      requires FaultsLast(start, events, false) && Rooted(events) && AllOffered(events, [h] + queue)
      modifies `index, `flags, `db, `dirty, `snapshot, bestChain, bestChain.nodes, pool
      ensures bestChain.nodes == old(bestChain.nodes) || fresh(bestChain.nodes)
      ensures Ready(start, events') && FaultsLast(start, events', faulted)
      ensures Rooted(events') && AllOffered(events', queue')
      ensures if faulted then NoneAdoptable(left + [h] + queue') else NoneAdoptable(left + queue')
      ensures old(Best()) && !faulted ==> Best()
      ensures pool.orphans.Keys <= old(pool.orphans.Keys)
      ensures |pool.orphans| < old(|pool.orphans|) || (pool.orphans == old(pool.orphans) && queue' == queue)
      ensures Adopted(old(pool.orphans), pool.orphans, events, events', fastAdd, context, connect)
    {
      hide Ready, NoneAdoptable, Honest, Best, Adopted, FaultsLast, Rooted, AllOffered;
      queue', events', faulted := queue, events, false;
      AdoptedNone(pool.orphans, events, fastAdd, context, connect);
      while h in pool.prevOrphans
        invariant bestChain.nodes == old(bestChain.nodes) || fresh(bestChain.nodes)
        invariant Ready(start, events') && FaultsLast(start, events', false)
        invariant NoneAdoptable(left + [h] + queue') && (old(Best()) ==> Best())
        invariant Rooted(events') && AllOffered(events', [h] + queue')
        invariant pool.orphans.Keys <= old(pool.orphans.Keys)
        invariant |pool.orphans| < old(|pool.orphans|) || (pool.orphans == old(pool.orphans) && queue' == queue)
        invariant Adopted(old(pool.orphans), pool.orphans, events, events', fastAdd, context, connect)
        decreases |pool.orphans|
      {
        FirstOfList(h, start, events');
        var o := pool.prevOrphans[h][0];
        RemovingShrinks(pool.orphans, o.block.hash);
        AdoptedOneMore(old(pool.orphans), pool.orphans, events, events', o, fastAdd, context, connect);
        RootedExtends(events', EventOf(o, fastAdd, context, connect), h, queue');
        var outcome;
        outcome, events' := AdoptOne(o, fastAdd, context(o.block), connect, elect, left + [h] + queue', start, events');
        assert left + [h] + (queue' + [o.block.hash]) == left + [h] + queue' + [o.block.hash];
        queue' := queue' + [o.block.hash];
        if outcome.Faulted? {
          FewerOffered(events', h, queue');
          return true, queue', events';
        }
      }
      FewerOffered(events', h, queue');
      NoChildrenLeft(h, left, queue', start, events');
    }

    lemma FirstOfList(h: Hash, start: Core, events: seq<Event>)
      requires Ready(start, events) && h in pool.prevOrphans
      ensures pool.prevOrphans[h] != []
      ensures var o := pool.prevOrphans[h][0];
              o.block.hash in pool.orphans && pool.orphans[o.block.hash] == o && o.block.prev == h
    {
      assert pool.prevOrphans[h] != [] && pool.prevOrphans[h][0] in pool.prevOrphans[h];
    }

    lemma NoChildrenLeft(h: Hash, left: seq<Hash>, queue: seq<Hash>, start: Core, events: seq<Event>)
      requires Ready(start, events) && NoneAdoptable(left + [h] + queue) && h !in pool.prevOrphans
      ensures NoneAdoptable(left + queue)
    {
      hide Reached, Consistent, Sound, ChainView.Valid;
      forall k | k in pool.orphans
        ensures Waiting(index, flags, pool.orphans[k].block.prev, left + queue)
      {
        assert pool.orphans[k].block.prev in pool.prevOrphans;
        assert Waiting(index, flags, pool.orphans[k].block.prev, left + [h] + queue);
      }
    }

    /** Accepts pooled blocks whose parent has become known, and theirs in turn. */
    method ProcessOrphans(hash: Hash, fastAdd: bool, context: Block -> Verdict, connect: BlockNode -> Verdict,
                          elect: BlockNode -> ElectionState, ghost left: seq<Hash>, ghost start: Core,
                          ghost events: seq<Event>)
      returns (faulted: bool, ghost left': seq<Hash>, ghost events': seq<Event>)
      requires Ready(start, events) && NoneAdoptable(left + [hash]) && Honest(connect)
      requires FaultsLast(start, events, false) && Rooted(events) && AllOffered(events, [hash])
      modifies `index, `flags, `db, `dirty, `snapshot, bestChain, bestChain.nodes, pool
      ensures bestChain.nodes == old(bestChain.nodes) || fresh(bestChain.nodes)
      ensures Ready(start, events') && FaultsLast(start, events', faulted) && Rooted(events')
      ensures NoneAdoptable(left') && left <= left' && (!faulted ==> left' == left)
      ensures old(Best()) && !faulted ==> Best()
      ensures Adopted(old(pool.orphans), pool.orphans, events, events', fastAdd, context, connect)
    {
      hide Ready, NoneAdoptable, Honest, Best, Adopted, FaultsLast, Rooted, AllOffered;
      faulted, left', events' := false, left, events;
      AdoptedNone(pool.orphans, events, fastAdd, context, connect);
      var queue := [hash];
      while |queue| > 0
        invariant bestChain.nodes == old(bestChain.nodes) || fresh(bestChain.nodes)
        invariant Ready(start, events') && FaultsLast(start, events', false)
        invariant NoneAdoptable(left + queue) && (old(Best()) ==> Best())
        invariant Rooted(events') && AllOffered(events', queue)
        invariant Adopted(old(pool.orphans), pool.orphans, events, events', fastAdd, context, connect)
        decreases |pool.orphans|, |queue|
      {
        var h, rest := queue[0], queue[1..];
        assert left + [h] + rest == left + queue && [h] + rest == queue;
        ghost var before, so := pool.orphans, events';
        faulted, queue, events' := AdoptChildren(h, rest, fastAdd, context, connect, elect, left, start, events');
        AdoptedThen(old(pool.orphans), before, pool.orphans, events, so, events', fastAdd, context, connect);
        if faulted {
          left' := left + [h] + queue;
          return;
        }
      }
      assert left + queue == left;
    }

    /** Handles a block from the network: turns away duplicates and blocks that fail the
        context-free checks, keeps orphans for later, and otherwise adds the block and
        every pooled block that now has a parent. */
    method ProcessBlock(block: Block, height: Option<nat>, fastAdd: bool, checks: Verdict, context: Block -> Verdict,
                        connect: BlockNode -> Verdict, elect: BlockNode -> ElectionState, now: int,
                        ghost left: seq<Hash>)
      returns (outcome: Outcome, isOrphan: bool, ghost events: seq<Event>, ghost left': seq<Hash>)
      requires Valid() && dirty == {} && PoolValid() && NoneAdoptable(left)
      requires Honest(connect) && block == pool.blockOf(block.hash)
      modifies `index, `flags, `db, `dirty, `snapshot, bestChain, bestChain.nodes, pool
      ensures bestChain.nodes == old(bestChain.nodes) || fresh(bestChain.nodes)
      ensures Ready(old(CoreOf()), events)
      ensures NoneAdoptable(left') && left <= left' && (!outcome.Faulted? ==> left' == left)
      ensures events != [] ==> FaultsLast(old(CoreOf()), events, outcome.Faulted?) && Rooted(events)
      ensures events != [] ==> forall h :: h in old(pool.orphans) && old(pool.orphans)[h].block.prev in old(index) ==>
                h in pool.orphans
      ensures events != [] && !outcome.Faulted? ==>
                StayBehind(old(pool.orphans), old(index), pool.orphans, index, flags)
      ensures events != [] && !outcome.Faulted? ==>
                (NoneAdoptable([]) <==> AllInvalid(old(pool.orphans), old(index), index, flags))
      ensures !outcome.Faulted? && old(Best()) ==> Best()
      ensures Turned(old(index), old(pool.orphans), block, checks) ==>
                && !isOrphan && events == [] && pool.orphans == old(pool.orphans)
                && outcome ==
                   if checks == Fault && !Duplicate(old(index), old(pool.orphans), block) then Faulted else RuleError
      ensures block.hash in old(index) || block.hash in old(pool.orphans) ==>
                outcome == RuleError && !isOrphan && events == [] && pool.orphans == old(pool.orphans)
      ensures !Turned(old(index), old(pool.orphans), block, checks) ==> isOrphan == (block.prev !in old(index))
      ensures isOrphan ==> outcome == Accepted(false) && events == []
      ensures events == [] ==> db == old(db) && snapshot == old(snapshot)
      ensures isOrphan ==> block.hash in pool.orphans && pool.orphans[block.hash].block == block
      ensures isOrphan ==> Pooled(old(pool.orphans), pool.orphans, block, height, now)
      ensures !Turned(old(index), old(pool.orphans), block, checks) && !isOrphan ==>
                events != [] && events[0] == Event(block, height, fastAdd, context(block), connect)
                && var first := MaybeAccept(old(CoreOf()), events[0]).1;
                && (outcome == first || (first.Accepted? && outcome.Faulted?))
                && (if first.Accepted? then
                      Adopted(old(pool.orphans), pool.orphans, events[..1], events, fastAdd, context, connect)
                    else events == events[..1] && pool.orphans == old(pool.orphans))
    {
      hide Best, Valid, Reached, AllWait, Honest, PoolValid, ChainView.Valid, ChainView.View, Consistent;
      hide FaultsLast, StayBehind, AllInvalid;
      StartReady();
      PooledAreNew();
      ghost var start := CoreOf();
      events, isOrphan, left' := [], false, left;
      var known := BlockExists(block.hash);
      if known || block.hash in pool.orphans || checks == Reject { return RuleError, false, [], left; }
      if checks == Fault { return Faulted, false, [], left; }
      var parentKnown := BlockExists(block.prev);
      if !parentKnown {
        KeepOrphan(block, height, now, left);
        return Accepted(false), true, [], left;
      }
      ghost var behind := KnownParents();
      outcome, events := AcceptFirst(block, height, fastAdd, context(block), connect, elect, behind);
      if !outcome.Accepted? {
        if outcome.Faulted? {
          left' := left + (behind + [block.hash]);
          CoveredByMore(left, behind + [block.hash]);
        } else {
          OnlyOldStay(start, events, old(pool.orphans), left, behind);
        }
        return;
      }
      ghost var first := events;
      assert Rooted(first) && AllOffered(first, [block.hash]);
      var faulted;
      ghost var behind';
      faulted, behind', events := ProcessOrphans(block.hash, fastAdd, context, connect, elect, behind, start, events);
      AdoptedExtends(old(pool.orphans), pool.orphans, first, events, fastAdd, context, connect);
      KnownParentsStay(old(pool.orphans), pool.orphans, events, old(index), fastAdd, context, connect);
      if faulted {
        outcome := Faulted;
        left' := left + behind';
        CoveredByMore(left, behind');
      } else {
        OnlyOldStay(start, events, old(pool.orphans), left, behind);
      }
    }

    lemma CoveredByMore(a: seq<Hash>, b: seq<Hash>)
      requires NoneAdoptable(b)
      ensures NoneAdoptable(a + b)
    {
    }

    /** The parents of pooled blocks that are known already. */
    lemma KnownParents() returns (behind: seq<Hash>)
      ensures NoneAdoptable(behind) && forall p :: p in behind ==> p in index
    {
      var parents := ParentsOf(pool.orphans);
      behind := Known(parents, index);
    }

    /** At the end of a run without faults only blocks pooled before it whose parents were known
        before it can be adopted. */
    lemma OnlyOldStay(start: Core, events: seq<Event>, before: map<Hash, Orphan>, left: seq<Hash>, behind: seq<Hash>)
      requires Ready(start, events) && NoneAdoptable(behind) && forall p :: p in behind ==> p in start.index
      requires forall h :: h in pool.orphans ==> h in before && pool.orphans[h] == before[h]
      requires forall h :: h in before && before[h].block.prev in start.index ==> h in pool.orphans
      requires AllWait(before, start.index, start.flags, left)
      ensures NoneAdoptable(left) && StayBehind(before, start.index, pool.orphans, index, flags)
      ensures NoneAdoptable([]) <==> AllInvalid(before, start.index, index, flags)
    {
      hide Sound, ChainView.Valid, ChainView.View, Consistent, Run, Honest;
      RunKeepsBest(start, events);
      forall h | h in pool.orphans ensures Waiting(index, flags, pool.orphans[h].block.prev, left) {
        WaitingStays(start, CoreOf(), before[h].block.prev, left, behind);
      }
      NothingAdoptableIff(before, start.index, pool.orphans, index, flags);
    }

    lemma PooledAreNew()
      requires PoolValid()
      ensures forall h :: h in pool.orphans ==> pool.orphans[h].block.hash == h && h !in index
    {
    }

    lemma StartReady()
      requires Valid()
      ensures Stored() && Reached(CoreOf(), [])
    {
      hide Sound, Consistent;
    }

    /** Puts a block without a known parent into the pool. */
    method KeepOrphan(block: Block, height: Option<nat>, now: int, ghost left: seq<Hash>)
      requires PoolValid() && NoneAdoptable(left) && block == pool.blockOf(block.hash)
      requires block.hash !in index && block.hash !in pool.orphans && block.prev !in index
      modifies pool
      ensures PoolValid() && NoneAdoptable(left)
      ensures block.hash in pool.orphans && pool.orphans[block.hash].block == block
      ensures Pooled(old(pool.orphans), pool.orphans, block, height, now)
    {
      hide Agree;
      ghost var remembered, evicted := pool.AddOrphanBlock(block, height, now);
    }

    /** Offers the block itself; unless it is accepted no pooled block becomes adoptable. */
    method AcceptFirst(block: Block, height: Option<nat>, fastAdd: bool, context: Verdict,
                       connect: BlockNode -> Verdict, elect: BlockNode -> ElectionState, ghost left: seq<Hash>)
      returns (outcome: Outcome, ghost events: seq<Event>)
      requires Valid() && dirty == {} && PoolValid() && NoneAdoptable(left)
      requires Honest(connect) && block.hash !in index && block.hash !in pool.orphans
      modifies `index, `flags, `db, `dirty, `snapshot, bestChain, bestChain.nodes
      ensures bestChain.nodes == old(bestChain.nodes) || fresh(bestChain.nodes)
      ensures Ready(old(CoreOf()), events) && NoneAdoptable(left + [block.hash])
      ensures FaultsLast(old(CoreOf()), events, outcome.Faulted?)
      ensures old(Best()) && !outcome.Faulted? ==> Best()
      ensures outcome.RuleError? ==> NoneAdoptable(left)
      ensures events == [Event(block, height, fastAdd, context, connect)]
      ensures outcome == MaybeAccept(old(CoreOf()), events[0]).1
    {
      hide MostWork, Consistent, Sound, ChainView.Valid, ChainView.View, Run, Honest, MaybeAccept, Agree, FaultsLast;
      ghost var e := Event(block, height, fastAdd, context, connect);
      ghost var c := CoreOf();
      MaybeAcceptKeeps(c, e);
      RejectedIsFlagged(c, e);
      RunOne(c, e);
      FaultsFirst(c, e);
      events := [e];
      outcome := MaybeAcceptBlock(block, height, fastAdd, context, connect, elect);
      forall h | h in pool.orphans
        ensures Waiting(index, flags, pool.orphans[h].block.prev, left + [block.hash])
        ensures outcome.RuleError? ==> Waiting(index, flags, pool.orphans[h].block.prev, left)
      {
        WaitingGrows(c, CoreOf(), block.hash, pool.orphans[h].block.prev, left);
      }
    }
  }

  predicate AllWait(orphans: map<Hash, Orphan>, index: map<Hash, BlockNode>, flags: Flags, pending: seq<Hash>) {
    forall h :: h in orphans ==> Waiting(index, flags, orphans[h].block.prev, pending)
  }

  /** The block could be adopted: its parent is known, and not to be invalid. */
  predicate Adoptable(index: map<Hash, BlockNode>, flags: Flags, o: Orphan) {
    !Waiting(index, flags, o.block.prev, [])
  }

  /** The pooled blocks that could be adopted are exactly those pooled before whose parent was
      known before, unless it is known to be invalid. */
  ghost predicate StayBehind(before: map<Hash, Orphan>, known: map<Hash, BlockNode>, after: map<Hash, Orphan>,
                             index: map<Hash, BlockNode>, flags: Flags) {
    forall h :: (h in after && Adoptable(index, flags, after[h])) <==>
                (h in before && before[h].block.prev in known && Adoptable(index, flags, before[h]))
  }

  /** Every block pooled before whose parent was known before has a parent known to be invalid. */
  predicate AllInvalid(before: map<Hash, Orphan>, known: map<Hash, BlockNode>, index: map<Hash, BlockNode>,
                       flags: Flags) {
    forall h :: h in before && before[h].block.prev in known ==> Invalid(index, flags, before[h].block.prev)
  }

  predicate Invalid(index: map<Hash, BlockNode>, flags: Flags, p: Hash) {
    p in index && index[p] in flags && flags[index[p]].KnownInvalid()
  }

  /** So nothing can be adopted if and only if these are all the blocks of invalid parents. */
  lemma NothingAdoptableIff(before: map<Hash, Orphan>, known: map<Hash, BlockNode>, after: map<Hash, Orphan>,
                            index: map<Hash, BlockNode>, flags: Flags)
    requires StayBehind(before, known, after, index, flags) && forall p :: p in known ==> p in index
    ensures AllWait(after, index, flags, []) <==> AllInvalid(before, known, index, flags)
  {
    assert forall h :: h in before && before[h].block.prev in known ==>
      (Adoptable(index, flags, before[h]) <==> !Invalid(index, flags, before[h].block.prev));
    assert forall h :: h in after ==>
      (Adoptable(index, flags, after[h]) <==> !Waiting(index, flags, after[h].block.prev, []));
  }

  lemma WaitingStays(c: Core, c': Core, prev: Hash, left: seq<Hash>, behind: seq<Hash>)
    requires KeepsBest(c, c') && Waiting(c.index, c.flags, prev, left) && Waiting(c'.index, c'.flags, prev, behind)
    requires forall p :: p in behind ==> p in c.index
    ensures Waiting(c'.index, c'.flags, prev, left)
  {
    hide Sound;
    if prev in c.index && prev !in left {
      assert c.flags[c.index[prev]].Below(c'.flags[c.index[prev]]);
    }
  }

  /** The hashes that are in the index. */
  function Known(hashes: seq<Hash>, index: map<Hash, BlockNode>): (known: seq<Hash>)
    ensures forall h :: h in known <==> h in hashes && h in index
  {
    if hashes == [] then [] else
      (if hashes[0] in index then [hashes[0]] else []) + Known(hashes[1..], index)
  }

  lemma {:induction false} ParentsOf(orphans: map<Hash, Orphan>) returns (left: seq<Hash>)
    ensures forall h :: h in orphans ==> orphans[h].block.prev in left
    decreases |orphans|
  {
    if h :| h in orphans {
      RemovingShrinks(orphans, h);
      left := ParentsOf(orphans - {h});
      left := left + [orphans[h].block.prev];
      forall k | k in orphans ensures orphans[k].block.prev in left {
        if k != h { assert (orphans - {h})[k] == orphans[k]; }
      }
    } else {
      left := [];
    }
  }

  /** The block joins the orphans that have not expired; at most one of them goes, and only
      from a full pool. */
  ghost predicate Pooled(before: map<Hash, Orphan>, after: map<Hash, Orphan>, block: Block, height: Option<nat>,
                         now: int) {
    exists evicted: set<Hash> ::
      && after == (Unexpired(before, now) - evicted)[block.hash := Orphan(block, height, now + ORPHAN_LIFETIME)]
      && (|Unexpired(before, now)| < MAX_ORPHAN_BLOCKS ==> evicted == {})
  }

  function AttachOutcome(checked: Outcome, astray: bool): Outcome {
    if checked.Accepted? && astray then Faulted else checked
  }

  /** The block is in the index or in the pool already. */
  predicate Duplicate(index: map<Hash, BlockNode>, orphans: map<Hash, Orphan>, block: Block) {
    block.hash in index || block.hash in orphans
  }

  /** The block is turned away without looking at its parent. */
  predicate Turned(index: map<Hash, BlockNode>, orphans: map<Hash, Orphan>, block: Block, checks: Verdict) {
    Duplicate(index, orphans, block) || checks != Accept
  }

  function EventOf(o: Orphan, fastAdd: bool, context: Block -> Verdict, connect: BlockNode -> Verdict): Event {
    Event(o.block, o.height, fastAdd, context(o.block), connect)
  }

  /** The events added are exactly those of the orphans that have left the pool. */
  ghost predicate Adopted(before: map<Hash, Orphan>, after: map<Hash, Orphan>, events: seq<Event>, events': seq<Event>,
                          fastAdd: bool, context: Block -> Verdict, connect: BlockNode -> Verdict) {
    && events <= events'
    && (forall h :: h in after ==> h in before && after[h] == before[h])
    && (forall i :: |events| <= i < |events'| ==>
          var h := events'[i].block.hash;
          h in before && h !in after && events'[i] == EventOf(before[h], fastAdd, context, connect))
    && (forall h :: h in before && h !in after ==> exists i :: |events| <= i < |events'| && events'[i].block.hash == h)
  }

  lemma AdoptedNone(orphans: map<Hash, Orphan>, events: seq<Event>,
                    fastAdd: bool, context: Block -> Verdict, connect: BlockNode -> Verdict)
    ensures Adopted(orphans, orphans, events, events, fastAdd, context, connect)
  {
  }

  lemma AdoptedOneMore(before: map<Hash, Orphan>, now: map<Hash, Orphan>, events: seq<Event>, so: seq<Event>, o: Orphan,
                       fastAdd: bool, context: Block -> Verdict, connect: BlockNode -> Verdict)
    requires Adopted(before, now, events, so, fastAdd, context, connect)
    requires o.block.hash in now && now[o.block.hash] == o
    ensures var more := so + [EventOf(o, fastAdd, context, connect)];
            Adopted(before, now - {o.block.hash}, events, more, fastAdd, context, connect)
  {
    var next := so + [EventOf(o, fastAdd, context, connect)];
    forall h | h in before && h !in now - {o.block.hash}
      ensures exists i :: |events| <= i < |next| && next[i].block.hash == h
    {
      if h == o.block.hash {
        assert next[|so|].block.hash == h;
      } else {
        var i :| |events| <= i < |so| && so[i].block.hash == h;
        assert next[i].block.hash == h;
      }
    }
  }

  lemma AdoptedThen(a: map<Hash, Orphan>, b: map<Hash, Orphan>, c: map<Hash, Orphan>,
                    e: seq<Event>, f: seq<Event>, g: seq<Event>,
                    fastAdd: bool, context: Block -> Verdict, connect: BlockNode -> Verdict)
    requires Adopted(a, b, e, f, fastAdd, context, connect) && Adopted(b, c, f, g, fastAdd, context, connect)
    ensures Adopted(a, c, e, g, fastAdd, context, connect)
  {
    forall i | |e| <= i < |g|
      ensures var h := g[i].block.hash; h in a && h !in c && g[i] == EventOf(a[h], fastAdd, context, connect)
    {
      if i < |f| { assert g[i] == f[i]; }
    }
    forall h | h in a && h !in c ensures exists i :: |e| <= i < |g| && g[i].block.hash == h {
      if h in b {
        var i :| |f| <= i < |g| && g[i].block.hash == h;
      } else {
        var i :| |e| <= i < |f| && f[i].block.hash == h;
        assert g[i].block.hash == h;
      }
    }
  }

  lemma AdoptedExtends(before: map<Hash, Orphan>, after: map<Hash, Orphan>, events: seq<Event>, events': seq<Event>,
                       fastAdd: bool, context: Block -> Verdict, connect: BlockNode -> Verdict)
    requires Adopted(before, after, events, events', fastAdd, context, connect)
    ensures |events| <= |events'| && events'[..|events|] == events
  {
  }

  predicate Offered(events: seq<Event>, h: Hash) { exists j :: 0 <= j < |events| && events[j].block.hash == h }

  predicate AllOffered(events: seq<Event>, queue: seq<Hash>) { forall h :: h in queue ==> Offered(events, h) }

  /** Every block but the first follows an earlier one. */
  predicate Rooted(events: seq<Event>) {
    forall i :: 0 < i < |events| ==> Offered(events[..i], events[i].block.prev)
  }

  lemma RootedExtends(events: seq<Event>, e: Event, h: Hash, queue: seq<Hash>)
    requires Rooted(events) && AllOffered(events, [h] + queue) && e.block.prev == h
    ensures Rooted(events + [e]) && AllOffered(events + [e], [h] + (queue + [e.block.hash]))
  {
    var more := events + [e];
    assert more[..|events|] == events && h in [h] + queue;
    forall i | 0 < i < |more| ensures Offered(more[..i], more[i].block.prev) {
      if i < |events| { assert more[..i] == events[..i]; }
    }
    forall x | x in [h] + (queue + [e.block.hash]) ensures Offered(more, x) {
      if x == e.block.hash {
        assert more[|events|].block.hash == x;
      } else {
        assert x in [h] + queue;
        var j :| 0 <= j < |events| && events[j].block.hash == x;
        assert more[j].block.hash == x;
      }
    }
  }

  lemma FewerOffered(events: seq<Event>, h: Hash, queue: seq<Hash>)
    requires AllOffered(events, [h] + queue)
    ensures AllOffered(events, queue)
  {
    forall x | x in queue ensures Offered(events, x) { assert x in [h] + queue; }
  }

  /** An orphan whose parent was known before the call does not leave the pool by adoption. */
  lemma KnownParentsStay(before: map<Hash, Orphan>, after: map<Hash, Orphan>, events: seq<Event>,
                         index: map<Hash, BlockNode>, fastAdd: bool, context: Block -> Verdict,
                         connect: BlockNode -> Verdict)
    requires events != [] && events[0].block.hash !in index && Rooted(events)
    requires Adopted(before, after, events[..1], events, fastAdd, context, connect)
    requires forall h :: h in before ==> before[h].block.hash == h && h !in index
    ensures forall h :: h in before && before[h].block.prev in index ==> h in after
  {
    forall i | 1 <= i < |events| ensures events[i].block.prev !in index {
      var j :| 0 <= j < |events[..i]| && events[..i][j].block.hash == events[i].block.prev;
      assert events[..i][j] == events[j] && (j > 0 ==> events[j].block.hash in before);
    }
  }

  /** No offered block faults, except the last one if `faulted`. */
  ghost predicate FaultsLast(start: Core, events: seq<Event>, faulted: bool) {
    && Sound(start) && (forall e :: e in events ==> Honest(e.connect))
    && if !faulted then NeverFaults(start, events) else
         && events != []
         && NeverFaults(start, events[..|events| - 1])
         && RunEndsSound(start, events[..|events| - 1])
         && Offer(Run(start, events[..|events| - 1]), events[|events| - 1]).1.Faulted?
  }

  ghost predicate RunEndsSound(start: Core, events: seq<Event>)
    requires Sound(start) && forall e :: e in events ==> Honest(e.connect)
  {
    Sound(Run(start, events))
  }

  lemma FaultsLastExtends(start: Core, events: seq<Event>, e: Event)
    requires FaultsLast(start, events, false) && Honest(e.connect)
    ensures Sound(Run(start, events))
    ensures FaultsLast(start, events + [e], Offer(Run(start, events), e).1.Faulted?)
  {
    hide Sound, Offer, Run, NeverFaults;
    RunExtends(start, events, e);
    assert (events + [e])[..|events|] == events;
    NeverFaultsExtends(start, events, e);
  }

  lemma {:induction false} NeverFaultsExtends(start: Core, events: seq<Event>, e: Event)
    requires Sound(start) && Honest(e.connect) && (forall x :: x in events ==> Honest(x.connect))
    requires NeverFaults(start, events)
    ensures Sound(Run(start, events)) && forall x :: x in events + [e] ==> Honest(x.connect)
    ensures !Offer(Run(start, events), e).1.Faulted? ==> NeverFaults(start, events + [e])
    decreases |events|
  {
    hide Offer, Honest, MostWork, HasFailed, Connectable, AllValid, FlagsGrow;
    RunExtends(start, events, e);
    if events == [] {
      OfferKeeps(start, e);
      assert (events + [e])[1..] == [] && (events + [e])[0] == e;
    } else {
      OfferKeeps(start, events[0]);
      assert (events + [e])[1..] == events[1..] + [e];
      NeverFaultsExtends(Offer(start, events[0]).0, events[1..], e);
    }
  }

  lemma {:induction false} NeverFaultsAt(start: Core, events: seq<Event>, i: nat)
    requires Sound(start) && (forall x :: x in events ==> Honest(x.connect)) && NeverFaults(start, events)
    requires i < |events|
    ensures Sound(Run(start, events[..i])) && !Offer(Run(start, events[..i]), events[i]).1.Faulted?
    decreases i
  {
    hide Offer, Honest, MostWork, HasFailed, Connectable, AllValid, FlagsGrow;
    OfferKeeps(start, events[0]);
    if i == 0 {
      assert events[..0] == [];
    } else {
      NeverFaultsAt(Offer(start, events[0]).0, events[1..], i - 1);
      assert events[..i][1..] == events[1..][..i - 1];
    }
  }

  /** Nothing is offered after a block that faults. */
  lemma StopsAtFault(start: Core, events: seq<Event>, faulted: bool, i: nat)
    requires FaultsLast(start, events, faulted) && i < |events| && Sound(Run(start, events[..i]))
    requires Offer(Run(start, events[..i]), events[i]).1.Faulted?
    ensures faulted && |events| == i + 1
  {
    hide Sound, Offer, Run, NeverFaults;
    if !faulted {
      NeverFaultsAt(start, events, i);
    } else if i + 1 < |events| {
      var init := events[..|events| - 1];
      assert init[..i] == events[..i];
      NeverFaultsAt(start, init, i);
    }
  }

  lemma FaultsFirst(c: Core, e: Event)
    requires Sound(c) && Honest(e.connect)
    ensures FaultsLast(c, [e], Offer(c, e).1.Faulted?)
  {
    FaultsLastExtends(c, [], e);
    assert [] + [e] == [e];
  }

  lemma RunOne(c: Core, e: Event)
    requires Sound(c) && Honest(e.connect)
    ensures Run(c, [e]) == Offer(c, e).0
  {
    RunExtends(c, [], e);
    assert [] + [e] == [e];
    assert Run(c, []) == c;
  }

  lemma RemovingShrinks(orphans: map<Hash, Orphan>, h: Hash)
    requires h in orphans
    ensures |orphans - {h}| < |orphans|
  {
    assert (orphans - {h}).Keys == orphans.Keys - {h};
  }

  /** Adding at most the block `added` and growing flags keeps a parent waited for. */
  lemma WaitingGrows(c: Core, c': Core, added: Hash, prev: Hash, pending: seq<Hash>)
    requires KeepsBest(c, c') && Waiting(c.index, c.flags, prev, pending)
    requires forall h :: h in c'.index ==> h in c.index || h == added
    ensures Waiting(c'.index, c'.flags, prev, pending + [added])
    ensures prev != added ==> Waiting(c'.index, c'.flags, prev, pending)
  {
    hide Sound;
    if prev in c.index && prev !in pending {
      assert c.flags[c.index[prev]].Below(c'.flags[c.index[prev]]);
    }
  }

  lemma InsertConsistent(index: map<Hash, BlockNode>, flags: Flags, db: Db, snapshot: BestState,
                         tip: BlockNode, node: BlockNode)
    requires Consistent(index, flags, {}, db, snapshot, tip) && node.Child? && node.block.hash !in index
    requires Indexed(index, node.parent) && node.block.prev == node.parent.block.hash
    ensures Consistent(index[node.block.hash := node], flags[node := DATA_STORED], {node},
                       db.(blocks := db.blocks[node.block.hash := node.block]), snapshot, tip)
  {
    hide StoreMatches, Tree;
    assert StoreMatches(db.(blocks := db.blocks[node.block.hash := node.block]), snapshot, tip) by {
      StoreFrame(db, db.blocks[node.block.hash := node.block], snapshot, tip);
    }
    TreeGrows(index, Root(tip), node.parent, node.block);
    HashOf(index, Root(tip));
  }

  lemma HashOf(index: map<Hash, BlockNode>, root: BlockNode)
    requires Tree(index, root)
    ensures forall h :: h in index ==> index[h].block.hash == h
  {
  }

  lemma StoreFrame(db: Db, blocks: map<Hash, Block>, snapshot: BestState, tip: BlockNode)
    requires StoreMatches(db, snapshot, tip)
    ensures StoreMatches(db.(blocks := blocks), snapshot, tip)
  {
  }

  /** A parent hash an orphan may be waiting for. */
  predicate Waiting(index: map<Hash, BlockNode>, flags: Flags, prev: Hash, pending: seq<Hash>) {
    prev in index ==> prev in pending || (index[prev] in flags && flags[index[prev]].KnownInvalid())
  }

  /** Whatever the plan flags, the state stays sound. */
  lemma PlanIsSound(c: Core, node: BlockNode)
    requires NewLeaf(c, node) && Root(node) == Root(c.tip)
    ensures Sound(c.(flags := Plan(c, node).0)) && c.tip in c.flags && Plan(c, node).0.Keys == c.flags.Keys
    ensures Plan(c, node).1 + Plan(c, node).2 != [] ==> Plan(c, node).0 == c.flags
  {
    hide Sound;
    assert c.tip in c.flags && Sound(c) by { SoundTip(c); }
    if node.parent in c.flags && c.flags[node.parent].KnownInvalid() {
      InvalidParentKeeps(c, node);
    } else {
      var bad := FirstInvalid(c.flags, node, Fork(c.tip, node));
      if bad.Some? {
        InvalidChainKeeps(c, node, bad.value);
        SetAllEffect(c.flags, Above(bad.value, node), INVALID_ANCESTOR);
      }
    }
  }

  /** The plan's lists and how the reorganization follows from them. */
  lemma PlanLists(c: Core, node: BlockNode, connect: BlockNode -> Verdict)
    requires NewLeaf(c, node) && Root(node) == Root(c.tip)
    ensures Below(c.tip, c.tip) == [] && Above(node, node) == []
    ensures var (flags, detach, attach) := Plan(c, node);
            if detach == [] && attach == [] then Reorganize(c, node, connect) == (c.(flags := flags), Accepted(true))
            else
              var fork := Fork(c.tip, node);
              var (checked, outcome) := CheckAttach(c.flags, attach, connect);
              && flags == c.flags && fork != node && detach == Below(c.tip, fork) && attach == Above(fork, node)
              && Reorganize(c, node, connect)
                 == (if outcome.Accepted? then Core(c.index, checked, node) else c.(flags := checked), outcome)
  {
    hide Sound;
  }

  lemma SoundTip(c: Core)
    requires Sound(c)
    ensures c.tip in c.flags
  {
  }

  lemma AttachConnectable(flags: Flags, attach: seq<BlockNode>, connect: BlockNode -> Verdict)
    requires FlagsSound(flags) && Ascending(attach) && Honest(connect) && forall n :: n in attach ==> n in flags
    ensures CheckAttach(flags, attach, connect).1.Accepted? ==> forall n :: n in attach ==> Connectable(n)
  {
    CheckAttachSound(flags, attach, connect);
    CheckAttachEffect(flags, attach, connect);
  }
}
