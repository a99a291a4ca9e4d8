/** What holds of chain selection after every block and over every run. */
module ChainSafety {
  import opened Options
  import opened Ledger
  import opened BlockTree
  import opened ChainRules

  /** Most-work selection for every block but one. */
  ghost predicate MostWorkBut(c: Core, node: BlockNode) {
    forall n :: n in c.flags && n != node && WorkSum(n) > WorkSum(c.tip) ==> !Clean(c.flags, n)
  }

  /** What one step keeps whatever its outcome: a sound state, flags that only grow, and a
      tip that is replaced only by its child or by strictly more work. */
  ghost predicate GoodStep(c: Core, c': Core, node: BlockNode)
    requires node.Child?
  {
    && Sound(c') && c'.index == c.index && FlagsGrow(c.flags, c'.flags)
    && (c'.tip != c.tip ==> c'.tip == node && (node.parent == c.tip || WorkSum(node) > WorkSum(c.tip)))
  }

  /** A fresh leaf of the tree. */
  ghost predicate NewLeaf(c: Core, node: BlockNode) {
    Sound(c) && node.Child? && node in c.flags && c.flags[node] == DATA_STORED && !IsAncestor(node, c.tip)
  }

  lemma SoundFromFlags(c: Core, flags: Flags)
    requires Sound(c) && flags.Keys == c.flags.Keys && FlagsSound(flags) && AllValid(flags, c.tip)
    ensures Sound(c.(flags := flags))
  {
  }

  lemma MostWorkStays(c: Core, c': Core, node: BlockNode)
    requires MostWorkBut(c, node) && FlagsGrow(c.flags, c'.flags) && c'.flags.Keys == c.flags.Keys
    requires WorkSum(c'.tip) >= WorkSum(c.tip)
    requires node in c'.flags ==> WorkSum(node) <= WorkSum(c'.tip) || !Clean(c'.flags, node)
    ensures MostWork(c')
  {
    forall n | n in c'.flags && WorkSum(n) > WorkSum(c'.tip)
      ensures !Clean(c'.flags, n)
    {
      if n != node { UncleanGrows(c.flags, c'.flags, n); }
    }
  }

  // ----- extending the tip

  lemma ExtendKeeps(c: Core, node: BlockNode)
    requires NewLeaf(c, node) && node.parent == c.tip && Connectable(node)
    ensures GoodStep(c, Core(c.index, Set(c.flags, node, VALID), node), node)
    ensures MostWorkBut(c, node) ==> MostWork(Core(c.index, Set(c.flags, node, VALID), node))
  {
    var flags := Set(c.flags, node, VALID);
    SetSound(c.flags, node, VALID);
    AllValidFrame(c.flags, flags, c.tip);
    ChildRoot(c.tip, node.block);
    var c' := Core(c.index, flags, node);
    assert Sound(c');
    if MostWorkBut(c, node) { MostWorkStays(c, c', node); }
  }

  lemma RejectKeeps(c: Core, node: BlockNode)
    requires NewLeaf(c, node)
    ensures GoodStep(c, c.(flags := Set(c.flags, node, VALIDATE_FAILED)), node)
    ensures MostWorkBut(c, node) ==> MostWork(c.(flags := Set(c.flags, node, VALIDATE_FAILED)))
  {
    var flags := Set(c.flags, node, VALIDATE_FAILED);
    SetSound(c.flags, node, VALIDATE_FAILED);
    AllValidFrame(c.flags, flags, c.tip);
    SoundFromFlags(c, flags);
    UncleanAbove(flags, node, node);
    if MostWorkBut(c, node) { MostWorkStays(c, c.(flags := flags), node); }
  }

  // ----- reorganizing

  /** A known-invalid node has a failed ancestor or failed itself. */
  lemma InvalidHasFailed(flags: Flags, n: BlockNode)
    requires FlagsSound(flags) && n in flags && flags[n].KnownInvalid()
    ensures HasFailed(flags, n)
  {
  }

  lemma InvalidParentKeeps(c: Core, node: BlockNode)
    requires NewLeaf(c, node) && node.parent in c.flags && c.flags[node.parent].KnownInvalid()
    ensures GoodStep(c, c.(flags := Set(c.flags, node, INVALID_ANCESTOR)), node)
    ensures MostWorkBut(c, node) ==> MostWork(c.(flags := Set(c.flags, node, INVALID_ANCESTOR)))
  {
    var flags := Set(c.flags, node, INVALID_ANCESTOR);
    InvalidHasFailed(c.flags, node.parent);
    SetSound(c.flags, node, INVALID_ANCESTOR);
    AllValidFrame(c.flags, flags, c.tip);
    SoundFromFlags(c, flags);
    UncleanAbove(flags, node, node);
    if MostWorkBut(c, node) { MostWorkStays(c, c.(flags := flags), node); }
  }

  lemma {:induction false} FirstInvalidAboveFork(flags: Flags, n: BlockNode, fork: BlockNode)
    requires IsAncestor(fork, n) && FirstInvalid(flags, n, fork).Some?
    ensures IsAncestor(fork, FirstInvalid(flags, n, fork).value)
  {
    if !(n in flags && flags[n].KnownInvalid()) { FirstInvalidAboveFork(flags, n.parent, fork); }
  }

  lemma InvalidChainKeeps(c: Core, node: BlockNode, bad: BlockNode)
    requires NewLeaf(c, node) && Root(node) == Root(c.tip)
    requires FirstInvalid(c.flags, node, Fork(c.tip, node)) == Some(bad)
    ensures var c' := c.(flags := SetAll(c.flags, Above(bad, node), INVALID_ANCESTOR));
            GoodStep(c, c', node) && (MostWorkBut(c, node) ==> MostWork(c'))
  {
    var above := Above(bad, node);
    var flags := SetAll(c.flags, above, INVALID_ANCESTOR);
    FirstInvalidAboveFork(c.flags, node, Fork(c.tip, node));
    InvalidHasFailed(c.flags, bad);
    SetAllEffect(c.flags, above, INVALID_ANCESTOR);
    forall n | n in above
      ensures n.Child? && HasFailed(c.flags, n.parent) && !IsAncestor(n, c.tip)
    {
      AboveIsOffChain(c.tip, node, bad, n);
      AboveParent(bad, node, n);
      FailedAbove(c.flags, bad, n.parent);
    }
    SetAllSound(c.flags, above, INVALID_ANCESTOR);
    AllValidFrame(c.flags, flags, c.tip);
    SoundFromFlags(c, flags);
    UncleanAbove(flags, bad, node);
    if MostWorkBut(c, node) { MostWorkStays(c, c.(flags := flags), node); }
  }

  lemma AboveParent(low: BlockNode, n: BlockNode, a: BlockNode)
    requires IsAncestor(low, n) && a in Above(low, n)
    ensures a.Child? && IsAncestor(low, a.parent)
  {
    var i :| 0 <= i < |Above(low, n)| && Above(low, n)[i] == a;
    var h := Height(low) + 1 + i;
    AboveAt(low, n, i);
    AtParent(n, h);
    AtAt(n, h - 1, Height(low));
  }

  lemma AboveIndexed(c: Core, node: BlockNode, low: BlockNode)
    requires Sound(c) && node in c.flags && IsAncestor(low, node)
    ensures forall n :: n in Above(low, node) ==> n in c.flags
  {
    forall n | n in Above(low, node)
      ensures n in c.flags
    {
      AboveAncestor(low, node, n);
      AncestorIndexed(c.index, Root(c.tip), node, n);
    }
  }

  lemma AttachFailedKeeps(c: Core, node: BlockNode, connect: BlockNode -> Verdict)
    requires NewLeaf(c, node) && Root(node) == Root(c.tip) && Honest(connect)
    requires !CheckAttach(c.flags, Above(Fork(c.tip, node), node), connect).1.Accepted?
    ensures var (flags, outcome) := CheckAttach(c.flags, Above(Fork(c.tip, node), node), connect);
            && GoodStep(c, c.(flags := flags), node)
            && (MostWorkBut(c, node) && outcome.RuleError? ==> MostWork(c.(flags := flags)))
  {
    var fork := Fork(c.tip, node);
    var attach := Above(fork, node);
    var (flags, outcome) := CheckAttach(c.flags, attach, connect);
    AboveAscends(fork, node);
    AboveIndexed(c, node, fork);
    CheckAttachSound(c.flags, attach, connect);
    CheckAttachEffect(c.flags, attach, connect);
    forall a | a in c.flags && IsAncestor(a, c.tip)
      ensures a !in attach
    {
      if a in attach { AboveIsOffChain(c.tip, node, fork, a); }
    }
    AllValidFrame(c.flags, flags, c.tip);
    SoundFromFlags(c, flags);
    assert attach != [] ==> attach[|attach| - 1] == node;
    if MostWorkBut(c, node) && outcome.RuleError? { MostWorkStays(c, c.(flags := flags), node); }
  }

  /** With the fork point's chain valid and the attached nodes checked, the whole new chain
      is valid. */
  lemma {:induction false} NewChainValid(flags: Flags, fork: BlockNode, n: BlockNode)
    requires IsAncestor(fork, n) && AllValid(flags, fork)
    requires forall a :: a in Above(fork, n) ==> a in flags && flags[a].valid && !flags[a].KnownInvalid()
    ensures AllValid(flags, n)
  {
    if n != fork { NewChainValid(flags, fork, n.parent); }
  }

  lemma {:induction false} NoneInvalid(flags: Flags, n: BlockNode, fork: BlockNode)
    requires IsAncestor(fork, n) && FirstInvalid(flags, n, fork).None?
    ensures forall a :: a in Above(fork, n) && a in flags ==> !flags[a].KnownInvalid()
  {
    if n != fork { NoneInvalid(flags, n.parent, fork); }
  }

  lemma ReorganizedKeeps(c: Core, node: BlockNode, connect: BlockNode -> Verdict)
    requires NewLeaf(c, node) && Root(node) == Root(c.tip) && Honest(connect)
    requires WorkSum(node) > WorkSum(c.tip) && FirstInvalid(c.flags, node, Fork(c.tip, node)).None?
    requires CheckAttach(c.flags, Above(Fork(c.tip, node), node), connect).1.Accepted?
    ensures var c' := Core(c.index, CheckAttach(c.flags, Above(Fork(c.tip, node), node), connect).0, node);
            GoodStep(c, c', node) && (MostWorkBut(c, node) ==> MostWork(c'))
  {
    var fork := Fork(c.tip, node);
    var attach := Above(fork, node);
    var flags := CheckAttach(c.flags, attach, connect).0;
    AboveAscends(fork, node);
    AboveIndexed(c, node, fork);
    CheckAttachSound(c.flags, attach, connect);
    CheckAttachEffect(c.flags, attach, connect);
    NoneInvalid(c.flags, node, fork);
    ValidIsClean(c.flags, c.tip, fork);
    forall a | a in c.flags && IsAncestor(a, fork)
      ensures a !in attach
    {
      AncestorTransitive(a, fork, c.tip);
      if a in attach { AboveIsOffChain(c.tip, node, fork, a); }
    }
    AllValidFrame(c.flags, flags, fork);
    NewChainValid(flags, fork, node);
    var c' := Core(c.index, flags, node);
    assert Sound(c');
    if MostWorkBut(c, node) { MostWorkStays(c, c', node); }
  }

  lemma ReorganizeKeeps(c: Core, node: BlockNode, connect: BlockNode -> Verdict)
    requires NewLeaf(c, node) && Root(node) == Root(c.tip) && Honest(connect) && WorkSum(node) > WorkSum(c.tip)
    ensures var (c', outcome) := Reorganize(c, node, connect);
            GoodStep(c, c', node) && (MostWorkBut(c, node) && !outcome.Faulted? ==> MostWork(c'))
  {
    hide GoodStep, MostWork, MostWorkBut, CheckAttach, Above;
    var fork := Fork(c.tip, node);
    if node.parent in c.flags && c.flags[node.parent].KnownInvalid() {
      InvalidParentKeeps(c, node);
    } else if FirstInvalid(c.flags, node, fork).Some? {
      InvalidChainKeeps(c, node, FirstInvalid(c.flags, node, fork).value);
    } else if CheckAttach(c.flags, Above(fork, node), connect).1.Accepted? {
      ReorganizedKeeps(c, node, connect);
    } else {
      AttachFailedKeeps(c, node, connect);
    }
  }

  lemma UnchangedKeeps(c: Core, node: BlockNode)
    requires NewLeaf(c, node)
    ensures GoodStep(c, c, node)
    ensures MostWorkBut(c, node) && WorkSum(node) <= WorkSum(c.tip) ==> MostWork(c)
  {
  }

  lemma ConnectBestKeeps(c: Core, node: BlockNode, fastAdd: bool, connect: BlockNode -> Verdict)
    requires NewLeaf(c, node) && Root(node) == Root(c.tip) && Honest(connect)
    ensures var (c', outcome) := ConnectBest(c, node, fastAdd, connect);
            GoodStep(c, c', node) && (MostWorkBut(c, node) && !outcome.Faulted? ==> MostWork(c'))
  {
    hide GoodStep, MostWork, MostWorkBut, Sound;
    UnchangedKeeps(c, node);
    if node.parent == c.tip {
      if Connectable(node) { ExtendKeeps(c, node); }
      RejectKeeps(c, node);
    } else if WorkSum(node) > WorkSum(c.tip) {
      ReorganizeKeeps(c, node, connect);
    }
  }

  // ----- a block and a run

  lemma NewNodeTree(c: Core, prev: BlockNode, b: Block)
    requires Sound(c) && b.hash !in c.index && Indexed(c.index, prev) && b.prev == prev.block.hash
    ensures Tree(c.index[b.hash := Child(prev, b)], Root(c.tip))
    ensures Child(prev, b) !in c.flags && !IsAncestor(Child(prev, b), c.tip)
  {
    TreeGrows(c.index, Root(c.tip), prev, b);
    hide Tree, HasFailed, Connectable;
    if IsAncestor(Child(prev, b), c.tip) { AllValidAt(c.flags, c.tip, Child(prev, b)); }
  }

  lemma TreeGrows(index: map<Hash, BlockNode>, root: BlockNode, prev: BlockNode, b: Block)
    requires Tree(index, root) && b.hash !in index && Indexed(index, prev) && b.prev == prev.block.hash
    ensures Tree(index[b.hash := Child(prev, b)], root)
  {
    ChildRoot(prev, b);
    hide Root;
    var more := index[b.hash := Child(prev, b)];
    forall h | h in more
      ensures more[h].block.hash == h && Root(more[h]) == root
      ensures more[h].Child? ==> Indexed(more, more[h].parent) && more[h].block.prev == more[h].parent.block.hash
    {
      if h != b.hash { assert more[h] == index[h]; }
    }
  }

  lemma NewNodeFlags(flags: Flags, node: BlockNode)
    requires FlagsSound(flags) && node !in flags
    ensures FlagsSound(flags[node := DATA_STORED]) && FlagsGrow(flags, flags[node := DATA_STORED])
  {
    var after := flags[node := DATA_STORED];
    forall n | n in after && after[n].invalidAncestor
      ensures n.Child? && HasFailed(after, n.parent)
    {
      FailedGrows(flags, after, n.parent);
    }
  }

  lemma NewNodeIsLeaf(c: Core, prev: BlockNode, b: Block)
    requires Sound(c) && b.hash !in c.index && Indexed(c.index, prev) && b.prev == prev.block.hash
    ensures NewLeaf(AddNode(c, Child(prev, b)), Child(prev, b)) && FlagsGrow(c.flags, AddNode(c, Child(prev, b)).flags)
  {
    NewNodeTree(c, prev, b);
    NewNodeFlags(c.flags, Child(prev, b));
    AllValidFrame(c.flags, AddNode(c, Child(prev, b)).flags, c.tip);
  }

  lemma NewNodeWork(c: Core, node: BlockNode)
    requires MostWork(c) && FlagsGrow(c.flags, AddNode(c, node).flags)
    ensures MostWorkBut(AddNode(c, node), node)
  {
    var c' := AddNode(c, node);
    forall n | n in c'.flags && n != node && WorkSum(n) > WorkSum(c.tip)
      ensures !Clean(c'.flags, n)
    {
      UncleanGrows(c.flags, c'.flags, n);
    }
  }

  /** What one offered block keeps: a sound state, an index and flags that only grow, no
      loss of work at the tip, and an equal-work fork never displaces the tip. */
  ghost predicate KeepsBest(c: Core, c': Core) {
    && Sound(c')
    && Root(c'.tip) == Root(c.tip)
    && (forall h :: h in c.index ==> h in c'.index && c'.index[h] == c.index[h])
    && FlagsGrow(c.flags, c'.flags)
    && (c'.tip == c.tip || IsAncestor(c.tip, c'.tip) || WorkSum(c'.tip) > WorkSum(c.tip))
  }

  lemma AcceptedKeeps(c: Core, node: BlockNode, e: Event)
    requires Sound(c) && node.Child? && node.block == e.block && e.block.hash !in c.index && Honest(e.connect)
    requires Indexed(c.index, node.parent) && e.block.prev == node.parent.block.hash && Root(node) == Root(c.tip)
    ensures var (c', outcome) := ConnectBest(AddNode(c, node), node, e.fastAdd, e.connect);
            KeepsBest(c, c') && (MostWork(c) && !outcome.Faulted? ==> MostWork(c'))
  {
    NewNodeIsLeaf(c, node.parent, e.block);
    if MostWork(c) { NewNodeWork(c, node); }
    var c1 := AddNode(c, node);
    ConnectBestKeeps(c1, node, e.fastAdd, e.connect);
    var c2 := ConnectBest(c1, node, e.fastAdd, e.connect).0;
    FlagsGrowTransitive(c.flags, c1.flags, c2.flags);
    StepKeepsBest(c, c1, c2, node);
  }

  lemma StepKeepsBest(c: Core, c1: Core, c2: Core, node: BlockNode)
    requires node.Child? && c1 == AddNode(c, node) && GoodStep(c1, c2, node)
    requires node.block.hash !in c.index && Root(node) == Root(c.tip) && FlagsGrow(c.flags, c2.flags)
    ensures KeepsBest(c, c2)
  {
    if c2.tip != c.tip {
      AtParent(node, Height(node));
      assert node.parent == c.tip ==> IsAncestor(c.tip, node);
    }
  }

  lemma KeepsBestReflexive(c: Core)
    requires Sound(c)
    ensures KeepsBest(c, c)
  {
  }

  lemma ParentIn(c: Core, h: Hash)
    requires Sound(c) && h in c.index
    ensures Indexed(c.index, c.index[h]) && c.index[h].block.hash == h && Root(c.index[h]) == Root(c.tip)
  {
    hide AllValid, HasFailed;
  }

  lemma MaybeAcceptKeeps(c: Core, e: Event)
    requires Sound(c) && e.block.hash !in c.index && Honest(e.connect)
    ensures var (c', outcome) := MaybeAccept(c, e);
            KeepsBest(c, c') && (MostWork(c) && !outcome.Faulted? ==> MostWork(c'))
  {
    hide KeepsBest, MostWork, ConnectBest, AddNode, Sound, Tree, Indexed, Honest;
    KeepsBestReflexive(c);
    SoundTree(c);
    if e.block.prev in c.index {
      ParentIn(c, e.block.prev);
      var node := Child(c.index[e.block.prev], e.block);
      ChildRoot(node.parent, e.block);
      AcceptedKeeps(c, node, e);
    }
  }

  lemma FlagsGrowTransitive(a: Flags, b: Flags, c: Flags)
    requires FlagsGrow(a, b) && FlagsGrow(b, c)
    ensures FlagsGrow(a, c)
  {
    forall n | n in a
      ensures n in c && a[n].Below(c[n])
    {
      assert a[n].Below(b[n]) && b[n].Below(c[n]);
    }
  }

  /** Only the offered block is ever added, and when it was added but turned out to break a
      rule it is flagged. */
  lemma RejectedIsFlagged(c: Core, e: Event)
    requires Sound(c) && e.block.hash !in c.index
    ensures var (c', outcome) := MaybeAccept(c, e);
            && (forall h :: h in c'.index ==> h in c.index || h == e.block.hash)
            && (outcome.RuleError? && e.block.hash in c'.index ==>
                  c'.index[e.block.hash] in c'.flags && c'.flags[c'.index[e.block.hash]].KnownInvalid())
  {
    hide Sound, Connectable, HasFailed, AllValid;
    if e.block.prev in c.index {
      assert Tree(c.index, Root(c.tip)) by { SoundTree(c); }
      var node := Child(c.index[e.block.prev], e.block);
      ChildRoot(node.parent, e.block);
      FailedConnectFlags(AddNode(c, node), node, e.fastAdd, e.connect);
    }
  }

  lemma SoundTree(c: Core)
    requires Sound(c)
    ensures Tree(c.index, Root(c.tip))
  {
  }

  lemma FailedConnectFlags(c: Core, node: BlockNode, fastAdd: bool, connect: BlockNode -> Verdict)
    requires node.Child? && Root(node) == Root(c.tip) && node in c.flags
    ensures var (c', outcome) := ConnectBest(c, node, fastAdd, connect);
            && c'.index == c.index && node in c'.flags
            && (outcome.RuleError? ==> c'.flags[node].KnownInvalid())
  {
    hide Connectable;
    if node.parent != c.tip && WorkSum(node) > WorkSum(c.tip) {
      var (flags, detach, attach) := Plan(c, node);
      if FirstInvalid(c.flags, node, Fork(c.tip, node)).Some? {
        SetAllEffect(c.flags, Above(FirstInvalid(c.flags, node, Fork(c.tip, node)).value, node), INVALID_ANCESTOR);
      }
      CheckAttachEffect(flags, attach, connect);
      CheckAttachFlagsLast(flags, attach, connect);
    }
  }

  lemma {:induction false} CheckAttachFlagsLast(flags: Flags, attach: seq<BlockNode>, connect: BlockNode -> Verdict)
    requires attach != [] ==> attach[|attach| - 1] in flags
    ensures var (after, outcome) := CheckAttach(flags, attach, connect);
            outcome.RuleError? ==>
              attach != [] && attach[|attach| - 1] in after && after[attach[|attach| - 1]].KnownInvalid()
    decreases attach
  {
    if attach != [] {
      var last := attach[|attach| - 1];
      assert attach[1..] == [] || attach[1..][|attach[1..]| - 1] == last;
      if attach[0] in flags && flags[attach[0]].valid {
        CheckAttachFlagsLast(flags, attach[1..], connect);
      } else if connect(attach[0]) == Accept {
        CheckAttachFlagsLast(Set(flags, attach[0], VALID), attach[1..], connect);
      } else if connect(attach[0]) == Reject {
        SetAllEffect(Set(flags, attach[0], VALIDATE_FAILED), attach[1..], INVALID_ANCESTOR);
        assert last == attach[0] || last in attach[1..];
      }
    }
  }

  /** A duplicate is turned away before it reaches MaybeAccept. */
  function Offer(c: Core, e: Event): (Core, Outcome)
    requires Tree(c.index, Root(c.tip))
  {
    if e.block.hash in c.index then (c, RuleError) else MaybeAccept(c, e)
  }

  /** A sequence of blocks offered one after the other. */
  ghost function Run(c: Core, events: seq<Event>): Core
    requires Sound(c) && forall e :: e in events ==> Honest(e.connect)
    decreases |events|
  {
    if events == [] then c else
      OfferKeeps(c, events[0]);
      Run(Offer(c, events[0]).0, events[1..])
  }

  lemma OfferKeeps(c: Core, e: Event)
    requires Sound(c) && Honest(e.connect)
    ensures var (c', outcome) := Offer(c, e);
            KeepsBest(c, c') && (MostWork(c) && !outcome.Faulted? ==> MostWork(c'))
  {
    if e.block.hash in c.index {
      assert FlagsGrow(c.flags, c.flags);
    } else {
      MaybeAcceptKeeps(c, e);
    }
  }

  ghost predicate NeverFaults(c: Core, events: seq<Event>)
    requires Sound(c) && forall e :: e in events ==> Honest(e.connect)
    decreases |events|
  {
    if events == [] then true else
      OfferKeeps(c, events[0]);
      !Offer(c, events[0]).1.Faulted? && NeverFaults(Offer(c, events[0]).0, events[1..])
  }

  lemma KeepsBestTransitive(a: Core, b: Core, c: Core)
    requires KeepsBest(a, b) && KeepsBest(b, c)
    ensures KeepsBest(a, c)
  {
    FlagsGrowTransitive(a.flags, b.flags, c.flags);
    if IsAncestor(a.tip, b.tip) { WorkGrows(b.tip, Height(a.tip)); }
    if IsAncestor(b.tip, c.tip) {
      WorkGrows(c.tip, Height(b.tip));
      if IsAncestor(a.tip, b.tip) { AncestorTransitive(a.tip, b.tip, c.tip); }
    }
  }

  /** Most-work selection and flag soundness over every run: from a sound state, every run
      ends in a sound state with grown flags, the tip's work never drops and an equal-work
      fork never displaces it; and without a fault no indexed block is heavier than the tip
      unless it or an ancestor is known to be invalid. */
  lemma {:induction false} RunKeepsBest(c: Core, events: seq<Event>)
    requires Sound(c) && forall e :: e in events ==> Honest(e.connect)
    ensures KeepsBest(c, Run(c, events)) && WorkSum(Run(c, events).tip) >= WorkSum(c.tip)
    ensures MostWork(c) && NeverFaults(c, events) ==> MostWork(Run(c, events))
    decreases |events|
  {
    if events == [] {
      assert FlagsGrow(c.flags, c.flags);
    } else {
      var c' := Offer(c, events[0]).0;
      OfferKeeps(c, events[0]);
      RunKeepsBest(c', events[1..]);
      KeepsBestTransitive(c, c', Run(c', events[1..]));
    }
    var end := Run(c, events);
    if IsAncestor(c.tip, end.tip) { WorkGrows(end.tip, Height(c.tip)); }
  }

  /** One more block at the end of a run. */
  lemma {:induction false} RunExtends(c: Core, events: seq<Event>, e: Event)
    requires Sound(c) && Honest(e.connect) && forall x :: x in events ==> Honest(x.connect)
    ensures Sound(Run(c, events)) && (forall x :: x in events + [e] ==> Honest(x.connect))
    ensures Run(c, events + [e]) == Offer(Run(c, events), e).0
    decreases |events|
  {
    hide Offer, Sound, MostWork, FlagsGrow;
    SoundTree(c);
    assert forall x :: x in events + [e] ==> x in events || x == e;
    if events == [] {
      OfferKeeps(c, e);
      assert (events + [e])[1..] == [] && (events + [e])[0] == e;
    } else {
      OfferKeeps(c, events[0]);
      assert (events + [e])[1..] == events[1..] + [e];
      RunExtends(Offer(c, events[0]).0, events[1..], e);
    }
  }

  /** The state before any block arrives: only genesis, stored and valid. */
  function Initial(genesis: Block): Core {
    var g := Genesis(genesis);
    Core(map[genesis.hash := g], map[g := DATA_STORED.Or(VALID)], g)
  }

  lemma InitialIsSound(genesis: Block)
    ensures Sound(Initial(genesis)) && MostWork(Initial(genesis))
  {
  }

  /** Over every run: a flagged invalid ancestor is backed by a failed proper ancestor, and
      no block of the best chain is known to be invalid. */
  lemma FlagsAreSoundOverRuns(c: Core, events: seq<Event>, n: BlockNode)
    requires Sound(c) && forall e :: e in events ==> Honest(e.connect)
    requires n in Run(c, events).flags
    ensures var end := Run(c, events);
            && (end.flags[n].invalidAncestor ==>
                  exists a :: a in end.flags && end.flags[a].failed && a != n && IsAncestor(a, n))
            && (IsAncestor(n, end.tip) ==> end.flags[n].valid && !end.flags[n].KnownInvalid())
  {
    RunKeepsBest(c, events);
    var end := Run(c, events);
    if end.flags[n].invalidAncestor {
      var a := FailedAncestor(end.flags, n.parent);
      ParentAncestor(a, n);
    }
    if IsAncestor(n, end.tip) { AllValidAt(end.flags, end.tip, n); }
  }

  lemma {:induction false} FailedAncestor(flags: Flags, n: BlockNode) returns (a: BlockNode)
    requires HasFailed(flags, n)
    ensures a in flags && flags[a].failed && IsAncestor(a, n)
  {
    if n in flags && flags[n].failed { a := n; } else { a := FailedAncestor(flags, n.parent); }
  }

  lemma {:induction false} AllValidAt(flags: Flags, n: BlockNode, a: BlockNode)
    requires AllValid(flags, n) && IsAncestor(a, n)
    ensures a in flags && flags[a].valid && !flags[a].KnownInvalid()
  {
    if a != n { AllValidAt(flags, n.parent, a); }
  }

  /** For a node of the best chain there is nothing to attach, but the list to detach is empty
      only if it is the tip itself. */
  lemma OnChainListsIff(c: Core, node: BlockNode)
    requires Sound(c) && node.Child? && IsAncestor(node, c.tip) && Root(node) == Root(c.tip)
    ensures Plan(c, node).2 == [] && (Plan(c, node).1 == [] <==> node == c.tip)
  {
    AtParent(node, Height(node));
    AtHeight(node, Height(node) - 1);
    AncestorTransitive(node.parent, node, c.tip);
    AllValidAt(c.flags, c.tip, node.parent);
    hide Sound;
    assert Fork(c.tip, node) == node && FirstInvalid(c.flags, node, node).None?;
    if Height(node) == Height(c.tip) { assert At(c.tip, Height(node)) == c.tip; }
  }
}
