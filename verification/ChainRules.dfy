/** Chain selection as plain values: the block index with its validity flags and the tip,
    what accepting one block does to them, and what holds over every run. */
module ChainRules {
  import opened Options
  import opened Ledger
  import opened BlockTree

  // ----- flags

  /** The status bit field of a node. */
  datatype Status = Status(stored: bool, valid: bool, failed: bool, invalidAncestor: bool) {
    predicate KnownInvalid() { failed || invalidAncestor }

    function Or(s: Status): Status {
      Status(stored || s.stored, valid || s.valid, failed || s.failed, invalidAncestor || s.invalidAncestor)
    }

    predicate Below(s: Status) { Or(s) == s }
  }

  const DATA_STORED := Status(true, false, false, false)
  const VALID := Status(false, true, false, false)
  const VALIDATE_FAILED := Status(false, false, true, false)
  const INVALID_ANCESTOR := Status(false, false, false, true)

  type Flags = map<BlockNode, Status>

  /** Switches flags on; flags are never switched off. */
  function Set(flags: Flags, n: BlockNode, s: Status): Flags {
    if n in flags then flags[n := flags[n].Or(s)] else flags
  }

  function SetAll(flags: Flags, nodes: seq<BlockNode>, s: Status): Flags
    decreases nodes
  {
    if nodes == [] then flags else SetAll(Set(flags, nodes[0], s), nodes[1..], s)
  }

  /** Some ancestor of n, or n itself, failed validation. */
  predicate HasFailed(flags: Flags, n: BlockNode) {
    (n in flags && flags[n].failed) || (n.Child? && HasFailed(flags, n.parent))
  }

  /** Neither n nor any ancestor is known to be invalid. */
  predicate Clean(flags: Flags, n: BlockNode) {
    (n in flags ==> !flags[n].KnownInvalid()) && (n.Child? ==> Clean(flags, n.parent))
  }

  predicate AllValid(flags: Flags, n: BlockNode) {
    n in flags && flags[n].valid && !flags[n].KnownInvalid() && (n.Child? ==> AllValid(flags, n.parent))
  }

  // ----- the state

  datatype Core = Core(index: map<Hash, BlockNode>, flags: Flags, tip: BlockNode)

  predicate Indexed(index: map<Hash, BlockNode>, n: BlockNode) {
    n.block.hash in index && index[n.block.hash] == n
  }

  predicate Tree(index: map<Hash, BlockNode>, root: BlockNode) {
    forall h :: h in index ==>
      && index[h].block.hash == h
      && Root(index[h]) == root
      && (index[h].Child? ==> Indexed(index, index[h].parent) && index[h].block.prev == index[h].parent.block.hash)
  }

  /** The unspent set after connecting the whole chain up to n; the genesis coinbase is
      not spendable. */
  function UtxosOf(n: BlockNode): Coins {
    if n.Genesis? then map[] else Connect(UtxosOf(n.parent), n.block, Height(n))
  }

  /** No output of the genesis block is ever unspent: every unspent output was created above it. */
  lemma {:induction false} UnspentAboveGenesis(n: BlockNode)
    ensures CreatedAfterGenesis(UtxosOf(n))
  {
    if n.Child? {
      UnspentAboveGenesis(n.parent);
      ConnectTxsKeeps(UtxosOf(n.parent) + Created(n.block.coinbase, Height(n), true), n.block.txs, Height(n));
    }
  }

  predicate Connectable(n: BlockNode) {
    n.Child? ==> CanConnect(UtxosOf(n.parent), n.block, Height(n))
  }

  ghost predicate Sound(c: Core) {
    && Tree(c.index, Root(c.tip))
    && (forall n :: n in c.flags <==> Indexed(c.index, n))
    && (forall n :: n in c.flags && c.flags[n].invalidAncestor ==> n.Child? && HasFailed(c.flags, n.parent))
    && (forall n :: n in c.flags && c.flags[n].valid ==> Connectable(n))
    && AllValid(c.flags, c.tip)
  }

  /** Every indexed block with more cumulative work than the tip is itself, or has an
      ancestor, known to be invalid. */
  ghost predicate MostWork(c: Core) {
    forall n :: n in c.flags && WorkSum(n) > WorkSum(c.tip) ==> !Clean(c.flags, n)
  }

  // ----- one block

  /** What a check says: fine, a consensus rule is broken, or it could not be carried out. */
  datatype Verdict = Accept | Reject | Fault

  datatype Outcome = Accepted(main: bool) | RuleError | Faulted

  /** Checks the nodes to attach, lowest first, without connecting any of them. */
  function CheckAttach(flags: Flags, attach: seq<BlockNode>, connect: BlockNode -> Verdict): (Flags, Outcome)
    decreases attach
  {
    if attach == [] then (flags, Accepted(true))
    else if attach[0] in flags && flags[attach[0]].valid then CheckAttach(flags, attach[1..], connect)
    else match connect(attach[0])
      case Accept => CheckAttach(Set(flags, attach[0], VALID), attach[1..], connect)
      case Reject => (SetAll(Set(flags, attach[0], VALIDATE_FAILED), attach[1..], INVALID_ANCESTOR), RuleError)
      case Fault => (flags, Faulted)
  }

  /** Walking down from n, the first node above `fork` that is known to be invalid. */
  function FirstInvalid(flags: Flags, n: BlockNode, fork: BlockNode): (bad: Option<BlockNode>)
    requires IsAncestor(fork, n)
    ensures bad.Some? ==> IsAncestor(bad.value, n) && bad.value in flags && flags[bad.value].KnownInvalid()
  {
    if n == fork then None
    else if n in flags && flags[n].KnownInvalid() then Some(n)
    else FirstInvalid(flags, n.parent, fork)
  }

  /** The nodes to detach (tip first) and to attach (lowest first) so that node becomes the
      tip.  When node's chain is known to be invalid both lists are empty and the nodes
      above the invalid one are flagged instead. */
  function Plan(c: Core, node: BlockNode): (Flags, seq<BlockNode>, seq<BlockNode>)
    requires node.Child? && Root(node) == Root(c.tip)
  {
    if node.parent in c.flags && c.flags[node.parent].KnownInvalid() then
      (Set(c.flags, node, INVALID_ANCESTOR), [], [])
    else
      var fork := Fork(c.tip, node);
      var bad := FirstInvalid(c.flags, node, fork);
      if bad.Some? then (SetAll(c.flags, Above(bad.value, node), INVALID_ANCESTOR), [], [])
      else (c.flags, Below(c.tip, fork), Above(fork, node))
  }

  /** Nothing changes but flags unless every node to attach passes its checks. */
  function Reorganize(c: Core, node: BlockNode, connect: BlockNode -> Verdict): (Core, Outcome)
    requires node.Child? && Root(node) == Root(c.tip)
  {
    var (planned, detach, attach) := Plan(c, node);
    if detach == [] && attach == [] then (c.(flags := planned), Accepted(true)) else
      var (flags, outcome) := CheckAttach(planned, attach, connect);
      if outcome.Accepted? then (Core(c.index, flags, node), outcome) else (c.(flags := flags), outcome)
  }

  function ConnectBest(c: Core, node: BlockNode, fastAdd: bool, connect: BlockNode -> Verdict): (Core, Outcome)
    requires node.Child? && Root(node) == Root(c.tip)
  {
    if node.parent == c.tip then
      var skip := fastAdd || (node in c.flags && c.flags[node].valid);
      if skip then
        if Connectable(node) then (Core(c.index, Set(c.flags, node, VALID), node), Accepted(true)) else (c, Faulted)
      else match connect(node)
        case Accept => (Core(c.index, Set(c.flags, node, VALID), node), Accepted(true))
        case Reject => (c.(flags := Set(c.flags, node, VALIDATE_FAILED)), RuleError)
        case Fault => (c, Faulted)
    else if WorkSum(node) <= WorkSum(c.tip) then (c, Accepted(false))
    else Reorganize(c, node, connect)
  }

  /** One block offered to the chain, with the answers the validation code gives about it
      and about any block checked on its behalf. */
  datatype Event = Event(block: Block, height: Option<nat>, fastAdd: bool, context: Verdict,
                         connect: BlockNode -> Verdict)

  /** The contract of connection checks: an accepted block's inputs are all available. */
  ghost predicate Honest(connect: BlockNode -> Verdict) {
    forall n: BlockNode :: connect(n) == Accept ==> Connectable(n)
  }

  function AddNode(c: Core, node: BlockNode): Core {
    Core(c.index[node.block.hash := node], c.flags[node := DATA_STORED], c.tip)
  }

  function MaybeAccept(c: Core, e: Event): (Core, Outcome)
    requires Tree(c.index, Root(c.tip))
  {
    if e.block.prev !in c.index then (c, RuleError) else
      var prev := c.index[e.block.prev];
      if prev in c.flags && c.flags[prev].KnownInvalid() then (c, RuleError)
      else if e.height.Some? && e.height.value != Height(prev) + 1 then (c, RuleError)
      else match e.context
        case Reject => (c, RuleError)
        case Fault => (c, Faulted)
        case Accept =>
          var node := Child(prev, e.block);
          ChildRoot(prev, e.block);
          ConnectBest(AddNode(c, node), node, e.fastAdd, e.connect)
  }

  lemma ChildRoot(p: BlockNode, b: Block)
    ensures Root(Child(p, b)) == Root(p)
  {
  }

  // ----- facts about flags

  ghost predicate FlagsGrow(before: Flags, after: Flags) {
    forall n :: n in before ==> n in after && before[n].Below(after[n])
  }

  lemma {:induction false} SetAllEffect(flags: Flags, nodes: seq<BlockNode>, s: Status)
    ensures SetAll(flags, nodes, s).Keys == flags.Keys
    ensures forall n :: n in flags ==> SetAll(flags, nodes, s)[n] == if n in nodes then flags[n].Or(s) else flags[n]
    decreases nodes
  {
    if nodes != [] {
      SetAllEffect(Set(flags, nodes[0], s), nodes[1..], s);
    }
  }

  lemma {:induction false} FailedGrows(before: Flags, after: Flags, n: BlockNode)
    requires FlagsGrow(before, after) && HasFailed(before, n)
    ensures HasFailed(after, n)
  {
    if !(n in before && before[n].failed) { FailedGrows(before, after, n.parent); }
  }

  lemma {:induction false} UncleanGrows(before: Flags, after: Flags, n: BlockNode)
    requires FlagsGrow(before, after) && !Clean(before, n)
    ensures !Clean(after, n)
  {
    if !(n in before && before[n].KnownInvalid()) { UncleanGrows(before, after, n.parent); }
  }

  /** Flags of nodes off the chain do not matter to it. */
  lemma {:induction false} AllValidFrame(before: Flags, after: Flags, n: BlockNode)
    requires AllValid(before, n) && FlagsGrow(before, after)
    requires forall a :: a in before && IsAncestor(a, n) ==> after[a].KnownInvalid() ==> before[a].KnownInvalid()
    ensures AllValid(after, n)
  {
    if n.Child? {
      forall a | a in before && IsAncestor(a, n.parent)
        ensures after[a].KnownInvalid() ==> before[a].KnownInvalid()
      {
        ParentAncestor(a, n);
      }
      AllValidFrame(before, after, n.parent);
    }
  }

  lemma ParentAncestor(a: BlockNode, n: BlockNode)
    requires n.Child? && IsAncestor(a, n.parent)
    ensures IsAncestor(a, n)
  {
  }

  lemma {:induction false} ValidIsClean(flags: Flags, n: BlockNode, a: BlockNode)
    requires AllValid(flags, n) && IsAncestor(a, n)
    ensures a in flags && !flags[a].KnownInvalid() && AllValid(flags, a)
  {
    if a != n { ValidIsClean(flags, n.parent, a); }
  }

  /** A known-invalid ancestor makes every descendant's chain unclean. */
  lemma {:induction false} UncleanAbove(flags: Flags, bad: BlockNode, n: BlockNode)
    requires bad in flags && flags[bad].KnownInvalid() && IsAncestor(bad, n)
    ensures !Clean(flags, n)
  {
    if bad != n { UncleanAbove(flags, bad, n.parent); }
  }

  lemma {:induction false} FailedAbove(flags: Flags, bad: BlockNode, n: BlockNode)
    requires HasFailed(flags, bad) && IsAncestor(bad, n)
    ensures HasFailed(flags, n)
  {
    if bad != n { FailedAbove(flags, bad, n.parent); }
  }

  lemma {:induction false} AncestorIndexed(index: map<Hash, BlockNode>, root: BlockNode, n: BlockNode, a: BlockNode)
    requires Tree(index, root) && Indexed(index, n) && IsAncestor(a, n)
    ensures Indexed(index, a)
  {
    if a != n { AncestorIndexed(index, root, n.parent, a); }
  }

  // ----- checking the nodes to attach

  predicate Ascending(nodes: seq<BlockNode>) {
    forall i :: 0 < i < |nodes| ==> nodes[i].Child? && nodes[i].parent == nodes[i - 1]
  }

  lemma AboveAscends(fork: BlockNode, n: BlockNode)
    requires IsAncestor(fork, n)
    ensures Ascending(Above(fork, n))
  {
    forall i | 0 < i < |Above(fork, n)|
      ensures Above(fork, n)[i].Child? && Above(fork, n)[i].parent == Above(fork, n)[i - 1]
    {
      AboveAt(fork, n, i);
      AboveAt(fork, n, i - 1);
      AtParent(n, Height(fork) + 1 + i);
    }
  }

  /** Invalid-ancestor flags have a failed ancestor to show for, valid flags a chain the
      block connects to. */
  ghost predicate FlagsSound(flags: Flags) {
    && (forall n :: n in flags && flags[n].invalidAncestor ==> n.Child? && HasFailed(flags, n.parent))
    && (forall n :: n in flags && flags[n].valid ==> Connectable(n))
  }

  /** Switching on flags that claim nothing false keeps the flags sound. */
  lemma SetAllSound(flags: Flags, nodes: seq<BlockNode>, s: Status)
    requires FlagsSound(flags)
    requires s.invalidAncestor ==> forall n :: n in nodes ==> n.Child? && HasFailed(flags, n.parent)
    requires s.valid ==> forall n :: n in nodes ==> Connectable(n)
    ensures FlagsSound(SetAll(flags, nodes, s)) && FlagsGrow(flags, SetAll(flags, nodes, s))
  {
    var after := SetAll(flags, nodes, s);
    SetAllEffect(flags, nodes, s);
    forall n | n in after && after[n].invalidAncestor
      ensures n.Child? && HasFailed(after, n.parent)
    {
      FailedGrows(flags, after, n.parent);
    }
  }

  lemma SetSound(flags: Flags, n: BlockNode, s: Status)
    requires FlagsSound(flags) && n in flags
    requires s.invalidAncestor ==> n.Child? && HasFailed(flags, n.parent)
    requires s.valid ==> Connectable(n)
    ensures FlagsSound(Set(flags, n, s)) && FlagsGrow(flags, Set(flags, n, s))
  {
    assert SetAll(flags, [n], s) == Set(flags, n, s) by { assert [n][1..] == []; }
    SetAllSound(flags, [n], s);
  }

  lemma {:induction false} FailedAlong(flags: Flags, nodes: seq<BlockNode>, j: nat)
    requires Ascending(nodes) && j < |nodes| && HasFailed(flags, nodes[0])
    ensures HasFailed(flags, nodes[j])
  {
    if j > 0 { FailedAlong(flags, nodes, j - 1); }
  }

  /** A rejected node and everything attached above it. */
  lemma RejectSound(flags: Flags, attach: seq<BlockNode>)
    requires FlagsSound(flags) && attach != [] && Ascending(attach)
    requires forall n :: n in attach ==> n in flags
    ensures var after := SetAll(Set(flags, attach[0], VALIDATE_FAILED), attach[1..], INVALID_ANCESTOR);
            FlagsSound(after) && FlagsGrow(flags, after) && !Clean(after, attach[|attach| - 1])
  {
    var mid := Set(flags, attach[0], VALIDATE_FAILED);
    SetSound(flags, attach[0], VALIDATE_FAILED);
    forall n | n in attach[1..]
      ensures n.Child? && HasFailed(mid, n.parent)
    {
      var j :| 0 < j < |attach| && attach[j] == n;
      FailedAlong(mid, attach, j - 1);
    }
    SetAllSound(mid, attach[1..], INVALID_ANCESTOR);
    SetAllEffect(mid, attach[1..], INVALID_ANCESTOR);
    var last := attach[|attach| - 1];
    assert last == attach[0] || last in attach[1..];
  }

  lemma {:induction false} CheckAttachSound(flags: Flags, attach: seq<BlockNode>, connect: BlockNode -> Verdict)
    requires FlagsSound(flags) && Ascending(attach) && Honest(connect)
    requires forall n :: n in attach ==> n in flags
    ensures var (after, outcome) := CheckAttach(flags, attach, connect);
            && FlagsSound(after) && FlagsGrow(flags, after)
            && (outcome.RuleError? ==> attach != [] && !Clean(after, attach[|attach| - 1]))
    decreases attach
  {
    if attach != [] {
      if flags[attach[0]].valid {
        CheckAttachSound(flags, attach[1..], connect);
      } else if connect(attach[0]) == Accept {
        SetSound(flags, attach[0], VALID);
        CheckAttachSound(Set(flags, attach[0], VALID), attach[1..], connect);
      } else if connect(attach[0]) == Reject {
        RejectSound(flags, attach);
      }
    }
  }

  lemma {:induction false} CheckAttachEffect(flags: Flags, attach: seq<BlockNode>, connect: BlockNode -> Verdict)
    ensures var (after, outcome) := CheckAttach(flags, attach, connect);
            && after.Keys == flags.Keys
            && (forall n :: n in flags && n !in attach ==> after[n] == flags[n])
            && (outcome.Accepted? ==> forall n :: n in flags && n in attach ==> after[n] == flags[n].Or(VALID))
    decreases attach
  {
    if attach != [] {
      if attach[0] in flags && flags[attach[0]].valid {
        CheckAttachEffect(flags, attach[1..], connect);
      } else if connect(attach[0]) == Accept {
        CheckAttachEffect(Set(flags, attach[0], VALID), attach[1..], connect);
      } else if connect(attach[0]) == Reject {
        SetAllEffect(Set(flags, attach[0], VALIDATE_FAILED), attach[1..], INVALID_ANCESTOR);
      }
    }
  }
}
