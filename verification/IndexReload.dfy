/** Loading the block index back from the database at start-up. */
module IndexReload {
  import opened Options
  import opened Ledger
  import opened BlockTree
  import opened ChainRules
  import opened ChainSafety
  import opened ChainStore
  import opened BlockChains

  // ----- key order

  function BigEndian(x: nat, k: nat): (bytes: seq<Byte>)
    ensures |bytes| == k
  {
    if k == 0 then [] else BigEndian(x / 256, k - 1) + [x % 256]
  }

  predicate LexLess(a: seq<Byte>, b: seq<Byte>) {
    b != [] && (a == [] || a[0] < b[0] || (a[0] == b[0] && LexLess(a[1..], b[1..])))
  }

  function Pow256(k: nat): nat { if k == 0 then 1 else 256 * Pow256(k - 1) }

  /** Byte order of fixed-width big-endian prefixes is numeric order, then the order of what
      follows. */
  lemma {:induction false} BigEndianOrder(x: nat, y: nat, k: nat, s: seq<Byte>, t: seq<Byte>)
    requires x < Pow256(k) && y < Pow256(k)
    ensures LexLess(BigEndian(x, k) + s, BigEndian(y, k) + t) <==> x < y || (x == y && LexLess(s, t))
    decreases k
  {
    if k == 0 {
      assert [] + s == s && [] + t == t;
    } else {
      var a: seq<Byte>, b: seq<Byte> := [x % 256] + s, [y % 256] + t;
      BigEndianOrder(x / 256, y / 256, k - 1, a, b);
      assert BigEndian(x, k) + s == BigEndian(x / 256, k - 1) + a;
      assert BigEndian(y, k) + t == BigEndian(y / 256, k - 1) + b;
      assert a[1..] == s && b[1..] == t;
    }
  }

  /** Height in four big-endian bytes, then the 32 bytes of the hash. */
  function BlockIndexKey(n: BlockNode): seq<Byte> {
    BigEndian(Height(n), 4) + BigEndian(n.block.hash, 32)
  }

  /** 36 bytes, of which the first four give the height from its highest to its lowest byte. */
  lemma KeyLayout(n: BlockNode)
    requires Height(n) < 0x1_0000_0000
    ensures var key := BlockIndexKey(n);
            |key| == 36 && Height(n) == 0x1000000 * (key[0] as int) + 0x10000 * (key[1] as int)
                                      + 0x100 * (key[2] as int) + key[3]
  {
    var x := Height(n);
    assert BigEndian(x / 0x10000, 2) == [x / 0x10000 / 256 % 256, x / 0x10000 % 256];
    assert BigEndian(x, 4) == BigEndian(x / 256 / 256, 2) + [x / 256 % 256, x % 256];
    Quarters(x);
  }

  lemma Quarters(x: nat)
    requires x < 0x1_0000_0000
    ensures x / 256 / 256 == x / 0x10000
    ensures x / 0x10000 / 256 % 256 * 0x1000000 + x / 0x10000 % 256 * 0x10000 + x / 256 % 256 * 0x100 + x % 256 == x
  {
  }

  predicate Representable(n: BlockNode) {
    Height(n) < Pow256(4) && n.block.hash < Pow256(32)
  }

  /** Keys sort by height first. */
  lemma KeysSortByHeight(a: BlockNode, b: BlockNode)
    requires Representable(a) && Representable(b) && LexLess(BlockIndexKey(a), BlockIndexKey(b))
    ensures Height(a) <= Height(b)
  {
    BigEndianOrder(Height(a), Height(b), 4, BigEndian(a.block.hash, 32), BigEndian(b.block.hash, 32));
  }

  lemma {:induction false} LexIrreflexive(a: seq<Byte>)
    ensures !LexLess(a, a)
  {
    if a != [] { LexIrreflexive(a[1..]); }
  }

  // ----- loading rows one by one

  /** A row of the block index bucket: its key, the block whose header it stores and its flags. */
  datatype Row = Row(key: seq<Byte>, block: Block, status: Status)

  datatype Loaded = Loaded(index: map<Hash, BlockNode>, flags: Flags) {
    function Add(n: BlockNode, status: Status): Loaded {
      Loaded(index[n.block.hash := n], flags[n := status])
    }
  }

  /** What rows in cursor order load to: the first must be genesis, the parent of every
      other one must already be there. */
  function Load(rows: seq<Row>, genesisHash: Hash): Option<Loaded>
    decreases |rows|
  {
    if rows == [] then Some(Loaded(map[], map[])) else
      var r := rows[|rows| - 1];
      match Load(rows[..|rows| - 1], genesisHash)
      case None => None
      case Some(l) =>
        if |rows| == 1 then
          if r.block.hash == genesisHash then Some(l.Add(Genesis(r.block), r.status)) else None
        else if r.block.prev in l.index then Some(l.Add(Child(l.index[r.block.prev], r.block), r.status))
        else None
  }

  /** The first row is genesis, and the parent of every other row is in a row before it. */
  predicate Ordered(rows: seq<Row>, genesisHash: Hash) {
    && (rows != [] ==> rows[0].block.hash == genesisHash)
    && forall i :: 0 < i < |rows| ==> HasHash(rows[..i], rows[i].block.prev)
  }

  predicate HasHash(rows: seq<Row>, h: Hash) { exists j :: 0 <= j < |rows| && rows[j].block.hash == h }

  /** Rows load exactly if they are in such an order, and then to an index of exactly their hashes. */
  lemma {:induction false} LoadsIff(rows: seq<Row>, genesisHash: Hash, h: Hash)
    ensures Load(rows, genesisHash).Some? <==> Ordered(rows, genesisHash)
    ensures Ordered(rows, genesisHash) ==> (h in Load(rows, genesisHash).value.index <==> HasHash(rows, h))
    decreases |rows|
  {
    if rows != [] {
      var last := |rows| - 1;
      LoadsIff(rows[..last], genesisHash, h);
      LoadsIff(rows[..last], genesisHash, rows[last].block.prev);
      HasOneMore(rows, h);
      OrderedOneMore(rows, genesisHash);
      hide Ordered, HasHash;
    }
  }

  lemma HasOneMore(rows: seq<Row>, h: Hash)
    requires rows != []
    ensures HasHash(rows, h) <==> HasHash(rows[..|rows| - 1], h) || rows[|rows| - 1].block.hash == h
  {
    if j :| 0 <= j < |rows| && rows[j].block.hash == h {
      if j < |rows| - 1 { assert rows[..|rows| - 1][j].block.hash == h; }
    }
  }

  lemma OrderedOneMore(rows: seq<Row>, genesisHash: Hash)
    requires rows != []
    ensures var last := |rows| - 1;
            Ordered(rows, genesisHash) <==>
            && Ordered(rows[..last], genesisHash)
            && if last == 0 then rows[0].block.hash == genesisHash else HasHash(rows[..last], rows[last].block.prev)
  {
    hide HasHash;
    var last := |rows| - 1;
    assert forall i :: 0 <= i <= last ==> rows[..last][..i] == rows[..i];
  }

  lemma {:induction false} LoadFails(rows: seq<Row>, i: nat, genesisHash: Hash)
    requires i <= |rows| && Load(rows[..i], genesisHash).None?
    ensures Load(rows, genesisHash).None?
    decreases |rows|
  {
    if i < |rows| {
      assert rows[..|rows| - 1][..i] == rows[..i];
      LoadFails(rows[..|rows| - 1], i, genesisHash);
    } else {
      assert rows[..i] == rows;
    }
  }

  /** The parent of the next row: the node loaded last when it fits, else a lookup. */
  method FindParent(prev: Hash, last: BlockNode, index: map<Hash, BlockNode>) returns (parent: Option<BlockNode>)
    requires Indexed(index, last)
    ensures parent == if prev in index then Some(index[prev]) else None
  {
    if prev == last.block.hash { return Some(last); }
    if prev !in index { return None; }
    return Some(index[prev]);
  }

  /** The loop of initChainState over the bucket. */
  method LoadIndex(rows: seq<Row>, genesisHash: Hash) returns (r: Option<Loaded>)
    ensures r == Load(rows, genesisHash)
  {
    var loaded := Loaded(map[], map[]);
    var lastNode: Option<BlockNode> := None;
    for i := 0 to |rows|
      invariant Load(rows[..i], genesisHash) == Some(loaded)
      invariant i == 0 <==> lastNode.None?
      invariant lastNode.Some? ==> Indexed(loaded.index, lastNode.value)
    {
      assert rows[..i + 1][..i] == rows[..i];
      var row := rows[i];
      var node := Genesis(row.block);
      if lastNode.None? {
        if row.block.hash != genesisHash {
          LoadFails(rows, i + 1, genesisHash);
          return None;
        }
      } else {
        var parent := FindParent(row.block.prev, lastNode.value, loaded.index);
        if parent.None? {
          LoadFails(rows, i + 1, genesisHash);
          return None;
        }
        node := Child(parent.value, row.block);
      }
      loaded := loaded.Add(node, row.status);
      lastNode := Some(node);
    }
    assert rows[..|rows|] == rows;
    r := Some(loaded);
  }

  // ----- the rows of a block tree

  predicate IsRowOf(r: Row, n: BlockNode, status: Status) {
    r == Row(BlockIndexKey(n), n.block, status)
  }

  /** `nodes` are the stored nodes in byte order of their keys, each once, and `rows` their rows. */
  ghost predicate Lists(rows: seq<Row>, nodes: seq<BlockNode>, stored: Flags) {
    && |rows| == |nodes|
    && (forall i, j :: 0 <= i < j < |rows| ==> LexLess(rows[i].key, rows[j].key))
    && (forall i :: 0 <= i < |rows| ==> nodes[i] in stored && IsRowOf(rows[i], nodes[i], stored[nodes[i]]))
    && (forall n :: n in stored ==> n in nodes)
  }

  ghost predicate Loadable(index: map<Hash, BlockNode>, flags: Flags, root: BlockNode) {
    && Tree(index, root) && root.Genesis? && Indexed(index, root)
    && (forall n :: n in flags <==> Indexed(index, n))
    && (forall n :: n in flags ==> Representable(n))
  }

  /** A lower node's row comes before a higher one's. */
  lemma LowerComesFirst(rows: seq<Row>, nodes: seq<BlockNode>, flags: Flags, i: nat, j: nat)
    requires Lists(rows, nodes, flags) && i < |rows| && j < |rows|
    requires Representable(nodes[i]) && Representable(nodes[j]) && Height(nodes[i]) < Height(nodes[j])
    ensures i < j
  {
    if j < i { KeysSortByHeight(nodes[j], nodes[i]); }
  }

  lemma GenesisIsLowest(n: BlockNode)
    ensures n.Genesis? <==> Height(n) == 0
  {
  }

  /** Genesis is listed first, and every other node after its parent. */
  lemma ParentsComeFirst(index: map<Hash, BlockNode>, flags: Flags, root: BlockNode, rows: seq<Row>,
                         nodes: seq<BlockNode>, i: nat)
    requires Loadable(index, flags, root) && Lists(rows, nodes, flags) && i < |rows|
    ensures i == 0 <==> nodes[i].Genesis?
    ensures i == 0 ==> nodes[i] == root
    ensures i > 0 ==> exists j :: 0 <= j < i && nodes[j] == nodes[i].parent
  {
    var n := nodes[i];
    var g :| 0 <= g < |nodes| && nodes[g] == root;
    GenesisIsLowest(n);
    GenesisIsLowest(root);
    FirstIsRoot(index, flags, root, rows, nodes, g);
    if n.Child? {
      LowerComesFirst(rows, nodes, flags, g, i);
      assert n.parent in flags;
      var j :| 0 <= j < |nodes| && nodes[j] == n.parent;
      LowerComesFirst(rows, nodes, flags, j, i);
    } else {
      assert n == root;
      if i > 0 { LexIrreflexive(rows[0].key); }
    }
  }

  lemma FirstIsRoot(index: map<Hash, BlockNode>, flags: Flags, root: BlockNode, rows: seq<Row>,
                    nodes: seq<BlockNode>, g: nat)
    requires Loadable(index, flags, root) && Lists(rows, nodes, flags) && g < |rows| && nodes[g] == root
    ensures nodes[0] == root
  {
    if g > 0 {
      KeysSortByHeight(nodes[0], root);
      GenesisIsLowest(nodes[0]);
      assert nodes[0] in flags;
    }
  }

  /** The nodes of the first i rows, by hash and with their flags. */
  ghost predicate HasFirst(l: Loaded, nodes: seq<BlockNode>, flags: Flags) {
    && (forall n :: n in nodes ==> Indexed(l.index, n))
    && (forall h :: h in l.index ==> l.index[h] in nodes && l.index[h].block.hash == h)
    && (forall n :: n in l.flags <==> n in nodes)
    && (forall n :: n in l.flags ==> n in flags && l.flags[n] == flags[n])
  }

  lemma HasFirstGrows(index: map<Hash, BlockNode>, root: BlockNode, l: Loaded, nodes: seq<BlockNode>, flags: Flags,
                      n: BlockNode)
    requires Loadable(index, flags, root) && HasFirst(l, nodes, flags) && n in flags
    ensures HasFirst(l.Add(n, flags[n]), nodes + [n], flags)
  {
  }

  lemma LoadStep(rows: seq<Row>, genesisHash: Hash, l: Loaded, n: BlockNode, status: Status)
    requires rows != [] && Load(rows[..|rows| - 1], genesisHash) == Some(l)
    requires rows[|rows| - 1].block == n.block && rows[|rows| - 1].status == status
    requires if |rows| == 1 then n.Genesis? && n.block.hash == genesisHash
             else n.Child? && n.block.prev == n.parent.block.hash && Indexed(l.index, n.parent)
    ensures Load(rows, genesisHash) == Some(l.Add(n, status))
  {
  }

  /** Loading the first i rows never fails and gives back the first i nodes. */
  lemma {:induction false} LoadsFirst(index: map<Hash, BlockNode>, flags: Flags, root: BlockNode, rows: seq<Row>,
                                      nodes: seq<BlockNode>, i: nat)
    requires Loadable(index, flags, root) && Lists(rows, nodes, flags) && i <= |rows|
    ensures Load(rows[..i], root.block.hash).Some?
    ensures HasFirst(Load(rows[..i], root.block.hash).value, nodes[..i], flags)
    decreases i
  {
    if i == 0 {
      assert nodes[..i] == [];
    } else {
      hide Load, HasFirst, Loadable, Lists;
      LoadsFirst(index, flags, root, rows, nodes, i - 1);
      LoadsNext(index, flags, root, rows, nodes, i - 1, Load(rows[..i - 1], root.block.hash).value);
    }
  }

  lemma LoadsNext(index: map<Hash, BlockNode>, flags: Flags, root: BlockNode, rows: seq<Row>,
                  nodes: seq<BlockNode>, i: nat, l: Loaded)
    requires Loadable(index, flags, root) && Lists(rows, nodes, flags) && i < |rows| == |nodes|
    requires Load(rows[..i], root.block.hash) == Some(l) && HasFirst(l, nodes[..i], flags)
    ensures nodes[i] in flags
    ensures Load(rows[..i + 1], root.block.hash) == Some(l.Add(nodes[i], flags[nodes[i]]))
    ensures HasFirst(l.Add(nodes[i], flags[nodes[i]]), nodes[..i + 1], flags)
  {
    hide Load, HasFirst, Loadable, Lists, BlockIndexKey;
    ParentLoaded(index, flags, root, rows, nodes, i, l);
    assert rows[..i + 1][..i] == rows[..i];
    assert nodes[..i + 1] == nodes[..i] + [nodes[i]];
    LoadStep(rows[..i + 1], root.block.hash, l, nodes[i], flags[nodes[i]]);
    HasFirstGrows(index, root, l, nodes[..i], flags, nodes[i]);
  }

  lemma ParentLoaded(index: map<Hash, BlockNode>, flags: Flags, root: BlockNode, rows: seq<Row>,
                     nodes: seq<BlockNode>, i: nat, l: Loaded)
    requires Loadable(index, flags, root) && Lists(rows, nodes, flags) && i < |rows|
    requires HasFirst(l, nodes[..i], flags)
    ensures |nodes| == |rows| && nodes[i] in flags && IsRowOf(rows[i], nodes[i], flags[nodes[i]])
    ensures if i == 0 then nodes[i].Genesis? && nodes[i].block.hash == root.block.hash
            else
              && nodes[i].Child? && nodes[i].block.prev == nodes[i].parent.block.hash
              && Indexed(l.index, nodes[i].parent)
  {
    ParentsComeFirst(index, flags, root, rows, nodes, i);
    if i > 0 {
      assert nodes[i] in flags && Indexed(index, nodes[i]);
      assert nodes[i].parent in nodes[..i];
    }
  }

  /** Reloading gives back the same nodes, with the same parents, heights and work, and the
      same flags. */
  lemma ReloadRebuilds(index: map<Hash, BlockNode>, flags: Flags, root: BlockNode, rows: seq<Row>,
                       nodes: seq<BlockNode>)
    requires Loadable(index, flags, root) && Lists(rows, nodes, flags)
    ensures Load(rows, root.block.hash) == Some(Loaded(index, flags))
  {
    hide Load, LexLess, BlockIndexKey, Representable;
    LoadsFirst(index, flags, root, rows, nodes, |rows|);
    assert rows[..|rows|] == rows && nodes[..|nodes|] == nodes;
    HasAll(index, flags, root, nodes, Load(rows, root.block.hash).value);
  }

  lemma HasAll(index: map<Hash, BlockNode>, flags: Flags, root: BlockNode, nodes: seq<BlockNode>, l: Loaded)
    requires Loadable(index, flags, root) && HasFirst(l, nodes, flags)
    requires (forall n :: n in flags ==> n in nodes) && (forall n :: n in nodes ==> n in flags)
    ensures l == Loaded(index, flags)
  {
    hide Representable;
    forall h ensures h in l.index <==> h in index
             ensures h in index ==> l.index[h] == index[h]
    {
      if h in index { assert Indexed(index, index[h]); }
    }
    assert l.index == index;
    assert l.flags == flags;
  }

  // ----- the state after a restart

  /** The flags with every ancestor of the tip marked valid. */
  function MarkValid(flags: Flags, tip: BlockNode): Flags {
    map n | n in flags :: if IsAncestor(n, tip) then flags[n].Or(VALID) else flags[n]
  }

  /** The ancestors of the tip that are not marked valid. */
  function NotYetValid(flags: Flags, tip: BlockNode): set<BlockNode> {
    set n | n in flags && IsAncestor(n, tip) && !flags[n].valid
  }

  lemma MarkValidKeeps(flags: Flags, tip: BlockNode)
    requires AllValid(flags, tip)
    ensures MarkValid(flags, tip) == flags && NotYetValid(flags, tip) == {}
  {
    forall n | n in flags && IsAncestor(n, tip) ensures flags[n].valid {
      AllValidAt(flags, tip, n);
    }
  }

  /** What a start-up ends with: index, flags and tip, the snapshot for readers, and the rows
      as they are stored then. */
  datatype Started = Started(core: Core, snapshot: BestState, rows: map<BlockNode, Status>)

  function Restart(rows: seq<Row>, genesisHash: Hash, db: Db): Option<Started> {
    match Load(rows, genesisHash)
    case None => None
    case Some(l) =>
      if db.best.hash !in l.index || db.best.hash !in db.blocks || db.best.hash !in db.elections then None
      else
        var tip := l.index[db.best.hash];
        var marked := MarkValid(l.flags, tip);
        Some(Started(
          Core(l.index, marked, tip),
          BestState(tip.block.hash, Height(tip), tip.block.bits, NumTxns(db.blocks[db.best.hash]), db.best.totalTxns,
                    db.elections[db.best.hash]),
          db.rows + FlagsOf(marked, NotYetValid(l.flags, tip))))
  }

  /** Walks down from the tip and marks what is not yet valid. */
  method UpgradeToValid(flags: Flags, tip: BlockNode) returns (marked: Flags, dirty: set<BlockNode>)
    ensures marked == MarkValid(flags, tip) && dirty == NotYetValid(flags, tip)
  {
    marked, dirty := flags, {};
    var node := tip;
    while true
      invariant IsAncestor(node, tip) && MarkedDownTo(flags, marked, dirty, tip, Height(node) + 1)
      decreases node
    {
      MarkNode(flags, marked, dirty, tip, node);
      if node in marked && !marked[node].valid {
        marked, dirty := Set(marked, node, VALID), dirty + {node};
      }
      if node.Genesis? { break; }
      ParentIsAncestor(node, tip);
      node := node.parent;
    }
  }

  /** Exactly the ancestors from the given height up are marked. */
  predicate MarkedDownTo(flags: Flags, marked: Flags, dirty: set<BlockNode>, tip: BlockNode, height: nat) {
    FlagsDownTo(flags, marked, tip, height) && dirty == InvalidDownTo(flags, tip, height)
  }

  predicate FlagsDownTo(flags: Flags, marked: Flags, tip: BlockNode, height: nat) {
    && marked.Keys == flags.Keys
    && forall n :: n in flags ==>
         marked[n] == if IsAncestor(n, tip) && Height(n) >= height then flags[n].Or(VALID) else flags[n]
  }

  function InvalidDownTo(flags: Flags, tip: BlockNode, height: nat): set<BlockNode> {
    set n | n in flags && IsAncestor(n, tip) && !flags[n].valid && Height(n) >= height
  }

  lemma MarkNode(flags: Flags, marked: Flags, dirty: set<BlockNode>, tip: BlockNode, node: BlockNode)
    requires IsAncestor(node, tip) && MarkedDownTo(flags, marked, dirty, tip, Height(node) + 1)
    ensures if node in marked && !marked[node].valid
            then MarkedDownTo(flags, Set(marked, node, VALID), dirty + {node}, tip, Height(node))
            else MarkedDownTo(flags, marked, dirty, tip, Height(node))
  {
    hide FlagsDownTo, InvalidDownTo, IsAncestor, Height;
    forall n ensures IsAncestor(n, tip) && Height(n) == Height(node) ==> n == node {
      if IsAncestor(n, tip) && Height(n) == Height(node) { OneAtHeight(n, node, tip); }
    }
    FlagsHere(flags, marked, tip, node);
    InvalidHere(flags, tip, node);
  }

  lemma FlagsHere(flags: Flags, marked: Flags, tip: BlockNode, node: BlockNode)
    requires IsAncestor(node, tip) && FlagsDownTo(flags, marked, tip, Height(node) + 1)
    requires forall n :: IsAncestor(n, tip) && Height(n) == Height(node) ==> n == node
    ensures node in marked <==> node in flags
    ensures node in marked ==> marked[node] == flags[node]
    ensures FlagsDownTo(flags, if node in marked && !marked[node].valid then Set(marked, node, VALID) else marked, tip,
                        Height(node))
  {
    hide IsAncestor, Height;
  }

  lemma InvalidHere(flags: Flags, tip: BlockNode, node: BlockNode)
    requires IsAncestor(node, tip)
    requires forall n :: IsAncestor(n, tip) && Height(n) == Height(node) ==> n == node
    ensures InvalidDownTo(flags, tip, Height(node)) ==
            InvalidDownTo(flags, tip, Height(node) + 1) + if node in flags && !flags[node].valid then {node} else {}
  {
    hide IsAncestor, Height;
  }

  lemma OneAtHeight(a: BlockNode, b: BlockNode, tip: BlockNode)
    requires IsAncestor(a, tip) && IsAncestor(b, tip) && Height(a) == Height(b)
    ensures a == b
  {
  }

  lemma ParentIsAncestor(node: BlockNode, tip: BlockNode)
    requires node.Child? && IsAncestor(node, tip)
    ensures IsAncestor(node.parent, tip)
  {
    AtParent(tip, Height(node));
  }

  /** Loads the index, finds the tip, marks its ancestors, reads its block and election state
      for the snapshot, and writes back the rows that were marked. */
  method InitChainState(rows: seq<Row>, genesisHash: Hash, db: Db) returns (r: Option<Started>)
    ensures r == Restart(rows, genesisHash, db)
  {
    var loaded := LoadIndex(rows, genesisHash);
    if loaded.None? { return None; }
    var l := loaded.value;
    if db.best.hash !in l.index { return None; }
    var tip := l.index[db.best.hash];
    if db.best.hash !in db.blocks { return None; }
    var marked, dirty := UpgradeToValid(l.flags, tip);
    if db.best.hash !in db.elections { return None; }
    var snapshot := BestState(tip.block.hash, Height(tip), tip.block.bits, NumTxns(db.blocks[db.best.hash]),
                              db.best.totalTxns, db.elections[db.best.hash]);
    r := Some(Started(Core(l.index, marked, tip), snapshot, db.rows + FlagsOf(marked, dirty)));
  }

  /** After a start every block of the best chain is marked valid, and no other mark differs from
      what was stored. */
  lemma RestartMarksChain(rows: seq<Row>, genesisHash: Hash, db: Db, n: BlockNode)
    requires Restart(rows, genesisHash, db).Some? && n in Load(rows, genesisHash).value.flags
    ensures var core, stored := Restart(rows, genesisHash, db).value.core, Load(rows, genesisHash).value.flags[n];
            && n in core.flags
            && core.flags[n].valid == (stored.valid || IsAncestor(n, core.tip))
            && core.flags[n] == stored.(valid := core.flags[n].valid)
  {
    hide Load;
  }

  /** When the rows were those of the loaded nodes, the stored rows are up to date again. */
  lemma RestartFlushes(rows: seq<Row>, genesisHash: Hash, db: Db)
    requires Restart(rows, genesisHash, db).Some? && db.rows == Load(rows, genesisHash).value.flags
    ensures Restart(rows, genesisHash, db).value.rows == Restart(rows, genesisHash, db).value.core.flags
  {
    hide Load;
  }

  /** Whatever has been flushed comes back: a node that stops between two blocks starts
      again with the same index, flags, tip and snapshot, and writes nothing. */
  lemma RestartRestores(c: Core, db: Db, snapshot: BestState, rows: seq<Row>, nodes: seq<BlockNode>)
    requires Sound(c) && Consistent(c.index, c.flags, {}, db, snapshot, c.tip)
    requires (forall n :: n in c.flags ==> Representable(n)) && Lists(rows, nodes, db.rows)
    ensures Restart(rows, Root(c.tip).block.hash, db) == Some(Started(c, snapshot, db.rows))
  {
    hide Load, Lists, Representable, MarkValid, NotYetValid, Sound, Consistent;
    StoredTip(c, db, snapshot);
    RowsAreFlags(c, db, snapshot);
    FlagsLoad(c, rows, nodes);
    assert db.rows + FlagsOf(c.flags, {}) == db.rows;
  }

  lemma RowsAreFlags(c: Core, db: Db, snapshot: BestState)
    requires Consistent(c.index, c.flags, {}, db, snapshot, c.tip)
    ensures db.rows == c.flags
  {
    hide BlocksMatch, StoreMatches, Tree;
    FlushedRows(c.flags, {}, db.rows);
  }

  /** The flags of a sound state load back, with nothing left to mark. */
  lemma FlagsLoad(c: Core, rows: seq<Row>, nodes: seq<BlockNode>)
    requires Sound(c) && (forall n :: n in c.flags ==> Representable(n)) && Lists(rows, nodes, c.flags)
    ensures Load(rows, Root(c.tip).block.hash) == Some(Loaded(c.index, c.flags))
    ensures MarkValid(c.flags, c.tip) == c.flags && NotYetValid(c.flags, c.tip) == {}
  {
    hide Load, Connectable, HasFailed, Lists, MarkValid, NotYetValid;
    RootIndexed(c.index, Root(c.tip), c.tip);
    ReloadRebuilds(c.index, c.flags, Root(c.tip), rows, nodes);
    MarkValidKeeps(c.flags, c.tip);
  }

  /** What a consistent database holds about its tip. */
  lemma StoredTip(c: Core, db: Db, snapshot: BestState)
    requires Consistent(c.index, c.flags, {}, db, snapshot, c.tip)
    ensures var h := db.best.hash;
            && h in c.index && c.index[h] == c.tip && h in db.blocks && h in db.elections
            && snapshot == BestState(c.tip.block.hash, Height(c.tip), c.tip.block.bits, NumTxns(db.blocks[h]),
                                     db.best.totalTxns, db.elections[h])
  {
    hide HashIndexOf, HeightIndexOf, JournalOf, UtxosOf, TotalTxns, Height, Tree, RowsMatch;
  }

  /** So between any two blocks the chain object can be stopped and loaded back. */
  lemma ChainRestarts(chain: BlockChain, rows: seq<Row>, nodes: seq<BlockNode>)
    requires chain.Valid() && chain.dirty == {} && Lists(rows, nodes, chain.db.rows)
    requires forall n :: n in chain.flags ==> Representable(n)
    ensures Restart(rows, Root(chain.TipNode()).block.hash, chain.db) ==
            Some(Started(chain.CoreOf(), chain.snapshot, chain.db.rows))
  {
    hide Lists, Restart, Consistent, Sound;
    RestartRestores(chain.CoreOf(), chain.db, chain.snapshot, rows, nodes);
  }

  lemma {:induction false} RootIndexed(index: map<Hash, BlockNode>, root: BlockNode, n: BlockNode)
    requires Tree(index, root) && Indexed(index, n)
    ensures root.Genesis? && Indexed(index, root)
  {
    if n.Child? { RootIndexed(index, root, n.parent); }
  }
}
