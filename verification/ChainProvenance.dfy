/** Where the flags, the index and the tip come from: nothing is valid, failed or indexed
    unless some check said so, and a block that passes all its checks is taken. */
module ChainProvenance {
  import opened Options
  import opened Ledger
  import opened BlockTree
  import opened ChainRules
  import opened ChainSafety
  import opened OrphanPools
  import BlockChains

  // ----- the nodes to attach

  predicate NowValid(before: Flags, after: Flags, n: BlockNode) {
    n in after && after[n].valid && !(n in before && before[n].valid)
  }

  predicate NowFailed(before: Flags, after: Flags, n: BlockNode) {
    n in after && after[n].failed && !(n in before && before[n].failed)
  }

  /** The node is known to be valid or its check accepts it. */
  predicate Passes(flags: Flags, connect: BlockNode -> Verdict, n: BlockNode) {
    (n in flags && flags[n].valid) || connect(n) == Accept
  }

  /** A node turns valid only if its check accepts it and failed only if its check rejects it. */
  ghost predicate Judged(before: Flags, after: Flags, connect: BlockNode -> Verdict) {
    forall n :: (NowValid(before, after, n) ==> connect(n) == Accept)
             && (NowFailed(before, after, n) ==> connect(n) == Reject)
  }

  predicate SomeSays(nodes: seq<BlockNode>, connect: BlockNode -> Verdict, verdict: Verdict) {
    exists n :: n in nodes && connect(n) == verdict
  }

  lemma {:induction false} CheckAttachJudges(flags: Flags, attach: seq<BlockNode>, connect: BlockNode -> Verdict)
    ensures var (after, outcome) := CheckAttach(flags, attach, connect);
            && after.Keys == flags.Keys && Judged(flags, after, connect)
            && (outcome.RuleError? ==> SomeSays(attach, connect, Reject))
            && (outcome.Faulted? ==> SomeSays(attach, connect, Fault))
            && ((forall n :: n in attach ==> Passes(flags, connect, n)) <==> outcome.Accepted?)
            && (outcome.Accepted? ==> outcome == Accepted(true))
    decreases attach
  {
    if attach != [] {
      var a, rest := attach[0], attach[1..];
      assert a in attach && forall n :: n in attach ==> n == a || n in rest;
      assert forall n :: n in rest ==> n in attach;
      if a in flags && flags[a].valid {
        CheckAttachJudges(flags, rest, connect);
      } else if connect(a) == Accept {
        CheckAttachJudges(Set(flags, a, VALID), rest, connect);
      } else if connect(a) == Reject {
        SetAllEffect(Set(flags, a, VALIDATE_FAILED), rest, INVALID_ANCESTOR);
      }
    }
  }

  // ----- one block

  /** The same for a step on behalf of a node, which may be added without a check. */
  ghost predicate JudgedFor(before: Flags, after: Flags, connect: BlockNode -> Verdict, fastAdd: bool,
                            node: BlockNode) {
    forall n :: (NowValid(before, after, n) ==> connect(n) == Accept || (fastAdd && n == node))
             && (NowFailed(before, after, n) ==> connect(n) == Reject)
  }

  /** The blocks from the best chain up to the node. */
  function Branch(c: Core, node: BlockNode): seq<BlockNode>
    requires Root(node) == Root(c.tip)
  {
    Above(Fork(c.tip, node), node)
  }

  /** Every block the chain is checked for is known to be valid or passes. */
  ghost predicate BranchPasses(c: Core, node: BlockNode, connect: BlockNode -> Verdict)
    requires Root(node) == Root(c.tip)
  {
    Clean(c.flags, node) && forall n :: n in Branch(c, node) ==> Passes(c.flags, connect, n)
  }

  /** The node extends the tip or is heavier, and everything checks. */
  ghost predicate TakesOver(c: Core, node: BlockNode, connect: BlockNode -> Verdict)
    requires node.Child? && Root(node) == Root(c.tip)
  {
    && BranchPasses(c, node, connect) && Connectable(node)
    && (node.parent == c.tip || WorkSum(node) > WorkSum(c.tip))
  }

  /** What a step that ends with this outcome says about the checks. */
  ghost predicate Explained(c: Core, node: BlockNode, fastAdd: bool, connect: BlockNode -> Verdict, c': Core,
                            outcome: Outcome)
    requires node.Child? && Root(node) == Root(c.tip)
  {
    && c'.index == c.index && JudgedFor(c.flags, c'.flags, connect, fastAdd, node)
    && (outcome.RuleError? ==> SomeSays(Branch(c, node), connect, Reject))
    && (outcome.Faulted? ==>
          || SomeSays(Branch(c, node), connect, Fault)
          || (!Connectable(node) && (fastAdd || (node in c.flags && c.flags[node].valid))))
    && (c'.tip != c.tip ==> c'.tip == node && outcome == Accepted(true))
    && (outcome == Accepted(false) <==> node.parent != c.tip && WorkSum(node) <= WorkSum(c.tip))
  }

  lemma SetJudges(flags: Flags, n: BlockNode)
    ensures forall m :: NowValid(flags, Set(flags, n, VALID), m) ==> m == n && !(n in flags && flags[n].valid)
    ensures forall m :: !NowFailed(flags, Set(flags, n, VALID), m)
    ensures forall m :: NowFailed(flags, Set(flags, n, VALIDATE_FAILED), m) ==> m == n
    ensures forall m :: !NowValid(flags, Set(flags, n, VALIDATE_FAILED), m)
    ensures forall m :: !NowValid(flags, flags, m) && !NowFailed(flags, flags, m)
  {
  }

  lemma ChildBranch(c: Core, node: BlockNode)
    requires node.Child? && node.parent == c.tip && Root(node) == Root(c.tip)
    ensures Branch(c, node) == [node]
  {
    assert !IsAncestor(node, c.tip) && IsAncestor(c.tip, c.tip);
    assert Fork(c.tip, node) == c.tip;
    assert Above(c.tip, node) == Above(c.tip, c.tip) + [node];
  }

  lemma ExtendExplained(c: Core, node: BlockNode, fastAdd: bool, connect: BlockNode -> Verdict)
    requires node.Child? && Root(node) == Root(c.tip) && node.parent == c.tip
    ensures var (c', outcome) := ConnectBest(c, node, fastAdd, connect);
            && Explained(c, node, fastAdd, connect, c', outcome)
            && (BranchPasses(c, node, connect) && (fastAdd || Passes(c.flags, connect, node)) && Connectable(node) ==>
                  c'.tip == node && outcome == Accepted(true))
  {
    ChildBranch(c, node);
    SetJudges(c.flags, node);
    hide Connectable, NowValid, NowFailed, Branch, Clean, Set;
    assert node in [node];
  }

  lemma PlanJudges(c: Core, node: BlockNode)
    requires node.Child? && Root(node) == Root(c.tip)
    ensures var (flags, detach, attach) := Plan(c, node);
            && (forall n :: !NowValid(c.flags, flags, n) && !NowFailed(c.flags, flags, n))
            && ((attach == [] && detach == []) || (attach == Branch(c, node) && flags == c.flags))
            && (Clean(c.flags, node) ==> flags == c.flags && attach == Branch(c, node))
  {
    var fork := Fork(c.tip, node);
    var bad := FirstInvalid(c.flags, node, fork);
    if Clean(c.flags, node) {
      assert Clean(c.flags, node.parent);
      if bad.Some? { UncleanAbove(c.flags, bad.value, node); }
    }
    if bad.Some? { SetAllEffect(c.flags, Above(bad.value, node), INVALID_ANCESTOR); }
    hide FirstInvalid, SetAll;
  }

  /** A heavier node is not on the best chain. */
  lemma HeavierLeaves(c: Core, node: BlockNode)
    requires Root(node) == Root(c.tip) && WorkSum(node) > WorkSum(c.tip)
    ensures Branch(c, node) != []
  {
    if IsAncestor(node, c.tip) { WorkGrows(c.tip, Height(node)); }
  }

  lemma ReorganizeExplained(c: Core, node: BlockNode, fastAdd: bool, connect: BlockNode -> Verdict)
    requires node.Child? && Root(node) == Root(c.tip) && node.parent != c.tip && WorkSum(node) > WorkSum(c.tip)
    ensures var (c', outcome) := Reorganize(c, node, connect);
            && Explained(c, node, fastAdd, connect, c', outcome)
            && (BranchPasses(c, node, connect) ==> c'.tip == node && outcome == Accepted(true))
  {
    PlanJudges(c, node);
    var (flags, detach, attach) := Plan(c, node);
    CheckAttachJudges(flags, attach, connect);
    HeavierLeaves(c, node);
    hide Plan, CheckAttach, Connectable, NowValid, NowFailed, WorkSum, Clean;
  }

  /** Whatever happens to an offered node is explained by the checks; and if it extends the tip or
      is heavier, nothing below it is known to be invalid and all checks pass, it becomes the
      tip. */
  lemma ConnectBestExplained(c: Core, node: BlockNode, fastAdd: bool, connect: BlockNode -> Verdict)
    requires node.Child? && Root(node) == Root(c.tip)
    ensures var (c', outcome) := ConnectBest(c, node, fastAdd, connect);
            && Explained(c, node, fastAdd, connect, c', outcome)
            && (TakesOver(c, node, connect) ==> c'.tip == node && outcome == Accepted(true))
  {
    if node.parent == c.tip {
      ExtendExplained(c, node, fastAdd, connect);
      ChildBranch(c, node);
      hide Explained, ConnectBest, Connectable, Clean;
      assert node in [node];
    } else if WorkSum(node) > WorkSum(c.tip) {
      ReorganizeExplained(c, node, fastAdd, connect);
      hide Explained, Reorganize, Connectable, BranchPasses;
    } else {
      hide Reorganize, Connectable, BranchPasses, Branch;
    }
  }

  // ----- the lists of a reorganization

  lemma {:induction false} BelowAt(n: BlockNode, fork: BlockNode, i: nat)
    requires IsAncestor(fork, n) && i < Height(n) - Height(fork)
    ensures Below(n, fork)[i] == At(n, Height(n) - i)
    decreases i
  {
    if i > 0 { BelowAt(n.parent, fork, i - 1); }
  }

  /** For a chain with nothing invalid in it: taking the listed blocks off the best chain, tip
      first, and putting the others on, lowest first, gives the chain of the node; and no block
      is taken off only to be put on again. */
  lemma PlanRebuilds(c: Core, node: BlockNode)
    requires node.Child? && Root(node) == Root(c.tip) && Clean(c.flags, node)
    ensures var (flags, detach, attach) := Plan(c, node);
            var best := Path(c.tip);
            && flags == c.flags && |detach| < |best|
            && Path(node) == best[..|best| - |detach|] + attach
            && (forall i :: 0 <= i < |detach| ==> detach[i] == best[|best| - 1 - i])
            && (forall n :: n in attach ==> !IsAncestor(n, c.tip))
            && (forall n :: n in detach ==> !IsAncestor(n, node))
  {
    hide Plan, Clean, Fork, Below, Above, FirstInvalid, Path, IsAncestor, Root, Height;
    CleanPlan(c, node);
    var fork := Fork(c.tip, node);
    PutOn(c.tip, node);
    forall i | 0 <= i < Height(c.tip) - Height(fork)
      ensures Below(c.tip, fork)[i] == Path(c.tip)[Height(c.tip) - i] && !IsAncestor(Below(c.tip, fork)[i], node)
    {
      TakenOff(c.tip, node, i);
    }
    forall n | n in Above(fork, node) ensures !IsAncestor(n, c.tip) {
      ForkItself(c.tip, node);
      AboveIsOffChain(c.tip, node, fork, n);
    }
  }

  lemma ForkItself(tip: BlockNode, node: BlockNode)
    requires Root(node) == Root(tip)
    ensures IsAncestor(Fork(tip, node), Fork(tip, node))
  {
  }

  lemma TakenOff(tip: BlockNode, node: BlockNode, i: nat)
    requires Root(node) == Root(tip) && i < Height(tip) - Height(Fork(tip, node))
    ensures var n := Below(tip, Fork(tip, node))[i]; n == Path(tip)[Height(tip) - i] && !IsAncestor(n, node)
  {
    hide Path, Below, BlockTree.At, Fork, Root;
    var fork := Fork(tip, node);
    var n := Below(tip, fork)[i];
    BelowAt(tip, fork, i);
    PathAt(tip, Height(tip) - i);
    AtHeight(tip, Height(tip) - i);
    if IsAncestor(n, node) { ForkIsHighest(tip, node, n); }
  }

  lemma PutOn(tip: BlockNode, node: BlockNode)
    requires Root(node) == Root(tip)
    ensures var fork := Fork(tip, node);
            Path(node) == Path(tip)[..Height(fork) + 1] + Above(fork, node)
  {
    hide Path, Above, Fork, Root;
    var fork := Fork(tip, node);
    var rebuilt := Path(tip)[..Height(fork) + 1] + Above(fork, node);
    forall k | 0 <= k < |rebuilt| ensures rebuilt[k] == Path(node)[k] {
      PathAt(node, k);
      if k <= Height(fork) {
        PathAt(tip, k);
        SharedBelow(tip, node, Height(fork), k);
      } else {
        AboveAt(fork, node, k - Height(fork) - 1);
      }
    }
  }

  lemma CleanPlan(c: Core, node: BlockNode)
    requires node.Child? && Root(node) == Root(c.tip) && Clean(c.flags, node)
    ensures var fork := Fork(c.tip, node); Plan(c, node) == (c.flags, Below(c.tip, fork), Above(fork, node))
  {
    var bad := FirstInvalid(c.flags, node, Fork(c.tip, node));
    assert Clean(c.flags, node.parent);
    if bad.Some? { UncleanAbove(c.flags, bad.value, node); }
  }

  /** When a block of the branch, or the parent, is known to be invalid nothing is listed, and
      the blocks above it are flagged as its descendants and no others. */
  lemma PlanFlags(c: Core, node: BlockNode)
    requires node.Child? && Root(node) == Root(c.tip) && node in c.flags
    ensures var (flags, detach, attach) := Plan(c, node);
            && flags.Keys == c.flags.Keys
            && (flags != c.flags ==> detach == [] && attach == [])
            && (forall n :: n in c.flags && flags[n] != c.flags[n] ==>
                  flags[n] == c.flags[n].Or(INVALID_ANCESTOR) && IsAncestor(n, node))
            && (forall a :: a in c.flags && c.flags[a].KnownInvalid() && (a in Branch(c, node) || a == node.parent) ==>
                  detach == [] && attach == [] && flags[node].KnownInvalid())
  {
    var fork := Fork(c.tip, node);
    var bad := FirstInvalid(c.flags, node, fork);
    if bad.Some? {
      var above := Above(bad.value, node);
      SetAllEffect(c.flags, above, INVALID_ANCESTOR);
      forall n | n in above ensures IsAncestor(n, node) { AboveAncestor(bad.value, node, n); }
      if bad.value != node { assert node in above; }
    } else {
      NoneInvalid(c.flags, node, fork);
    }
    hide FirstInvalid, SetAll, Fork;
  }

  lemma {:induction false} HighestInvalid(flags: Flags, n: BlockNode, fork: BlockNode, a: BlockNode)
    requires IsAncestor(fork, n) && a in Above(fork, n) && a in flags && flags[a].KnownInvalid()
    ensures var bad := FirstInvalid(flags, n, fork);
            bad.Some? && bad.value in Above(fork, n) && IsAncestor(bad.value, n) && IsAncestor(a, bad.value)
  {
    AboveAncestor(fork, n, a);
    if !(n in flags && flags[n].KnownInvalid()) {
      HighestInvalid(flags, n.parent, fork, a);
      ParentAncestor(FirstInvalid(flags, n, fork).value, n);
    }
  }

  /** Every block of the branch above all known invalid ones of it is flagged. */
  lemma AboveInvalidFlagged(c: Core, node: BlockNode, a: BlockNode, n: BlockNode)
    requires node.Child? && Root(node) == Root(c.tip) && n in c.flags && n in Branch(c, node)
    requires a in Branch(c, node) && a in c.flags && c.flags[a].KnownInvalid() && a != n && IsAncestor(a, n)
    requires forall b :: b in Branch(c, node) && b in c.flags && c.flags[b].KnownInvalid() ==> IsAncestor(b, a)
    ensures n in Plan(c, node).0 && Plan(c, node).0[n] == c.flags[n].Or(INVALID_ANCESTOR)
  {
    var fork := Fork(c.tip, node);
    HighestInvalid(c.flags, node, fork, a);
    var bad := FirstInvalid(c.flags, node, fork).value;
    assert bad == a;
    AboveAncestor(fork, node, n);
    InAbove(a, node, n);
    SetAllEffect(c.flags, Above(a, node), INVALID_ANCESTOR);
    hide FirstInvalid, SetAll, Fork, IsAncestor;
    if node.parent in c.flags && c.flags[node.parent].KnownInvalid() { OnlyNode(c, node, a, n); }
  }

  /** If the parent is known to be invalid, only the node itself is above. */
  lemma OnlyNode(c: Core, node: BlockNode, a: BlockNode, n: BlockNode)
    requires node.Child? && Root(node) == Root(c.tip) && node.parent in c.flags
    requires a in Branch(c, node) && a != n && IsAncestor(a, n) && IsAncestor(n, node)
    requires node.parent in Branch(c, node) ==> IsAncestor(node.parent, a)
    ensures n == node
  {
    var fork := Fork(c.tip, node);
    if node.parent !in Above(fork, node) {
      if node != fork && node.parent != fork { InAbove(fork, node, node.parent); }
    }
  }

  lemma {:induction false} InAbove(fork: BlockNode, n: BlockNode, x: BlockNode)
    requires IsAncestor(fork, n) && IsAncestor(x, n) && Height(x) > Height(fork)
    ensures x in Above(fork, n)
  {
    if x != n { InAbove(fork, n.parent, x); }
  }

  // ----- one offered block

  /** The block may enter the index. */
  predicate Admissible(c: Core, e: Event) {
    && e.block.prev in c.index && e.context == Accept
    && !(c.index[e.block.prev] in c.flags && c.flags[c.index[e.block.prev]].KnownInvalid())
    && (e.height.Some? ==> e.height.value == Height(c.index[e.block.prev]) + 1)
  }

  /** A block enters the index exactly if it is admissible, and then it follows its parent;
      otherwise nothing changes and it is not accepted. */
  lemma EntersIff(c: Core, e: Event)
    requires Tree(c.index, Root(c.tip)) && e.block.hash !in c.index
    ensures var (c', outcome) := MaybeAccept(c, e);
            && (e.block.hash in c'.index <==> Admissible(c, e))
            && (Admissible(c, e) ==>
                  c'.index == c.index[e.block.hash := Child(c.index[e.block.prev], e.block)])
            && (!Admissible(c, e) ==> c' == c && !outcome.Accepted? && (outcome.Faulted? ==> e.context == Fault))
  {
    if Admissible(c, e) {
      var node := Child(c.index[e.block.prev], e.block);
      ChildRoot(node.parent, e.block);
      ConnectBestExplained(AddNode(c, node), node, e.fastAdd, e.connect);
      hide ConnectBest, Root, BranchPasses, JudgedFor, SomeSays, Connectable, Branch;
    }
  }

  /** Everything a run makes valid, failed or known goes back to one of its events. */
  ghost predicate AcceptedIn(events: seq<Event>, n: BlockNode) {
    exists e :: e in events && (e.connect(n) == Accept || (e.fastAdd && e.block == n.block))
  }

  ghost predicate RejectedIn(events: seq<Event>, n: BlockNode) {
    exists e :: e in events && e.connect(n) == Reject
  }

  ghost predicate AdmittedIn(events: seq<Event>, n: BlockNode) {
    exists e :: && e in events && e.block == n.block && e.context == Accept
                && (e.height.Some? ==> e.height.value == Height(n))
  }

  ghost predicate Traced(before: Core, after: Core, events: seq<Event>, n: BlockNode) {
    && (NowValid(before.flags, after.flags, n) ==> AcceptedIn(events, n))
    && (NowFailed(before.flags, after.flags, n) ==> RejectedIn(events, n))
    && (n in after.flags && n !in before.flags ==> AdmittedIn(events, n))
  }

  lemma NodeTraced(c: Core, e: Event, node: BlockNode, c': Core, n: BlockNode)
    requires Sound(c) && Sound(c') && c'.index == c.index[e.block.hash := node]
    requires node.Child? && node.block == e.block && e.context == Accept
    requires e.height.Some? ==> e.height.value == Height(node)
    requires JudgedFor(AddNode(c, node).flags, c'.flags, e.connect, e.fastAdd, node)
    ensures Traced(c, c', [e], n)
  {
    hide Tree, HasFailed, Connectable, AllValid;
    assert e in [e];
    assert NowValid(c.flags, c'.flags, n) ==> NowValid(AddNode(c, node).flags, c'.flags, n);
    assert NowFailed(c.flags, c'.flags, n) ==> NowFailed(AddNode(c, node).flags, c'.flags, n);
    if n in c'.flags && n !in c.flags { assert Indexed(c'.index, n) && !Indexed(c.index, n); }
  }

  lemma OfferTraced(c: Core, e: Event, n: BlockNode)
    requires Sound(c) && Honest(e.connect)
    ensures Traced(c, Offer(c, e).0, [e], n)
  {
    hide Sound, BranchPasses, SomeSays, Connectable, Branch, Traced, JudgedFor, TakesOver, AddNode, Honest;
    assert Tree(c.index, Root(c.tip)) by { SoundTree(c); }
    if e.block.hash in c.index {
      NothingTraced(c, [e], n);
    } else {
      OfferKeeps(c, e);
      EntersIff(c, e);
      if !Admissible(c, e) {
        NothingTraced(c, [e], n);
      } else {
        var node := Child(c.index[e.block.prev], e.block);
        ChildRoot(node.parent, e.block);
        assert Root(node) == Root(AddNode(c, node).tip) by { RootOfNew(c, e); }
        ConnectBestExplained(AddNode(c, node), node, e.fastAdd, e.connect);
        NodeTraced(c, e, node, ConnectBest(AddNode(c, node), node, e.fastAdd, e.connect).0, n);
      }
    }
  }

  lemma NothingTraced(c: Core, events: seq<Event>, n: BlockNode)
    ensures Traced(c, c, events, n)
  {
  }

  lemma RootOfNew(c: Core, e: Event)
    requires Tree(c.index, Root(c.tip)) && e.block.prev in c.index
    ensures var node := Child(c.index[e.block.prev], e.block); Root(node) == Root(AddNode(c, node).tip)
  {
    ChildRoot(c.index[e.block.prev], e.block);
  }

  lemma TracedThen(a: Core, b: Core, c: Core, first: Event, rest: seq<Event>, n: BlockNode)
    requires Traced(a, b, [first], n) && Traced(b, c, rest, n)
    ensures Traced(a, c, [first] + rest, n)
  {
    assert forall e :: e in rest ==> e in [first] + rest;
    assert first in [first] + rest;
    if NowValid(a.flags, c.flags, n) { assert NowValid(a.flags, b.flags, n) || NowValid(b.flags, c.flags, n); }
    if NowFailed(a.flags, c.flags, n) { assert NowFailed(a.flags, b.flags, n) || NowFailed(b.flags, c.flags, n); }
  }

  /** Over every run: a block is valid only because it was, or because some check accepted it or
      it was added without one; failed only because some check rejected it; and indexed only
      because it was offered and passed its contextual checks. */
  lemma {:induction false} RunTraced(c: Core, events: seq<Event>, n: BlockNode)
    requires Sound(c) && forall e :: e in events ==> Honest(e.connect)
    ensures Traced(c, Run(c, events), events, n)
    decreases |events|
  {
    hide Traced, Offer, Honest, Sound;
    if events == [] {
      NothingTraced(c, [], n);
    } else {
      SoundTree(c);
      OfferKeeps(c, events[0]);
      assert Sound(Offer(c, events[0]).0) by { KeptIsSound(c, Offer(c, events[0]).0); }
      OfferTraced(c, events[0], n);
      RunTraced(Offer(c, events[0]).0, events[1..], n);
      TracedThen(c, Offer(c, events[0]).0, Run(c, events), events[0], events[1..], n);
      assert [events[0]] + events[1..] == events;
    }
  }

  lemma KeptIsSound(c: Core, c': Core)
    requires KeepsBest(c, c')
    ensures Sound(c')
  {
  }

  /** So every block of the best chain above genesis was offered, passed its contextual checks,
      and was accepted by the full check or added without it. */
  lemma BestChainWasChecked(genesis: Block, events: seq<Event>, n: BlockNode)
    requires forall e :: e in events ==> Honest(e.connect)
    requires (InitialIsSound(genesis); IsAncestor(n, Run(Initial(genesis), events).tip)) && n.Child?
    ensures AdmittedIn(events, n) && AcceptedIn(events, n)
  {
    InitialIsSound(genesis);
    var c := Initial(genesis);
    RunTraced(c, events, n);
    RunKeepsBest(c, events);
    AllValidAt(Run(c, events).flags, Run(c, events).tip, n);
  }

  // ----- adopted orphans

  /** An orphan that is adopted after a block lands at the height it came with, if it came with
      one, has an accepted context, and becomes valid only by the full check or the fast flag. */
  lemma AdoptedAsOffered(c: Core, first: Event, more: seq<Event>, before: map<Hash, Orphan>, after: map<Hash, Orphan>,
                         context: Block -> Verdict, n: BlockNode)
    requires Sound(c) && forall e :: e in [first] + more ==> Honest(e.connect)
    requires BlockChains.Adopted(before, after, [first], [first] + more, first.fastAdd, context, first.connect)
    requires n in Run(c, [first] + more).flags && n !in c.flags
    requires n.block.hash in before && first.block.hash !in before
    ensures before[n.block.hash].block == n.block && context(n.block) == Accept
    ensures before[n.block.hash].height.Some? ==> before[n.block.hash].height.value == Height(n)
    ensures Run(c, [first] + more).flags[n].valid ==> first.connect(n) == Accept || first.fastAdd
  {
    var events := [first] + more;
    hide Sound, Honest, Run;
    RunTraced(c, events, n);
    var e :| && e in events && e.block == n.block && e.context == Accept
             && (e.height.Some? ==> e.height.value == Height(n));
    var i :| 0 <= i < |events| && events[i] == e;
    assert i > 0;
    if AcceptedIn(events, n) {
      var x :| x in events && (x.connect(n) == Accept || (x.fastAdd && x.block == n.block));
      var k :| 0 <= k < |events| && events[k] == x;
    }
  }

  /** A block that has entered the index is turned away when it is offered again. */
  lemma OfferedAgain(c: Core, e: Event, again: Event)
    requires Sound(c) && Honest(e.connect) && Admissible(c, e) && again.block.hash == e.block.hash
    ensures Tree(c.index, Root(c.tip))
    ensures var c' := Offer(c, e).0; Tree(c'.index, Root(c'.tip)) && Offer(c', again) == (c', RuleError)
  {
    hide Sound, Honest, MaybeAccept, Tree;
    SoundTree(c);
    OfferKeeps(c, e);
    KeptIsSound(c, Offer(c, e).0);
    SoundTree(Offer(c, e).0);
    if e.block.hash !in c.index { EntersIff(c, e); }
  }

  // ----- every known block is stored

  ghost predicate AllStored(flags: Flags) { forall n :: n in flags ==> flags[n].stored }

  lemma GrownStaysStored(before: Flags, after: Flags)
    requires AllStored(before) && FlagsGrow(before, after) && after.Keys == before.Keys
    ensures AllStored(after)
  {
  }

  lemma OfferStores(c: Core, e: Event)
    requires Sound(c) && Honest(e.connect) && AllStored(c.flags)
    ensures Tree(c.index, Root(c.tip)) && AllStored(Offer(c, e).0.flags)
  {
    hide Sound, AllStored, FlagsGrow, ConnectBest, Honest, Tree, Indexed, AddNode, NewLeaf;
    SoundTree(c);
    if e.block.hash !in c.index && Admissible(c, e) {
      var node := Child(c.index[e.block.prev], e.block);
      ParentIn(c, e.block.prev);
      ChildRoot(node.parent, e.block);
      NewNodeIsLeaf(c, node.parent, e.block);
      NewIsStored(c, node);
      ConnectBestKeeps(AddNode(c, node), node, e.fastAdd, e.connect);
      SameNodes(AddNode(c, node), ConnectBest(AddNode(c, node), node, e.fastAdd, e.connect).0, node);
      GrownStaysStored(AddNode(c, node).flags, ConnectBest(AddNode(c, node), node, e.fastAdd, e.connect).0.flags);
    }
  }

  lemma NewIsStored(c: Core, node: BlockNode)
    requires AllStored(c.flags)
    ensures AllStored(AddNode(c, node).flags) && AddNode(c, node).tip == c.tip
  {
  }

  lemma SameNodes(c: Core, c': Core, node: BlockNode)
    requires NewLeaf(c, node) && GoodStep(c, c', node)
    ensures c'.flags.Keys == c.flags.Keys
  {
    hide Tree, HasFailed, Connectable, AllValid;
    assert forall n :: n in c'.flags <==> n in c.flags;
  }

  /** Over every run, every block that enters the index is marked as stored and stays so. */
  lemma {:induction false} RunStores(c: Core, events: seq<Event>)
    requires Sound(c) && AllStored(c.flags) && forall e :: e in events ==> Honest(e.connect)
    ensures AllStored(Run(c, events).flags)
    decreases |events|
  {
    hide Offer, Honest, Sound, AllStored;
    if events != [] {
      OfferStores(c, events[0]);
      OfferKeeps(c, events[0]);
      assert Sound(Offer(c, events[0]).0) by { KeptIsSound(c, Offer(c, events[0]).0); }
      RunStores(Offer(c, events[0]).0, events[1..]);
    }
  }
}
