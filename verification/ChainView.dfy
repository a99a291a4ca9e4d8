/** The flat view of the best chain: a growable array of nodes indexed by height. */
module ChainViews {
  import opened Options
  import opened Ledger
  import opened BlockTree
  import opened Locators

  /** Spare capacity added when the backing array is replaced. */
  const APPROX_NODES_PER_WEEK := 6 * 24 * 7

  function ParentOf(n: BlockNode): Option<BlockNode> {
    if n.Genesis? then None else Some(n.parent)
  }

  class ChainView {
    /** Backing array; entries at and beyond `length` are spare capacity and may be stale. */
    var nodes: array<Option<BlockNode>>
    var length: nat

    ghost predicate Valid()
      reads this, nodes
    {
      && length <= nodes.Length
      && (length > 0 ==>
          && nodes[length - 1].Some?
          && Height(nodes[length - 1].value) == length - 1
          && forall i :: 0 <= i < length ==> nodes[i] == Some(At(nodes[length - 1].value, i)))
    }

    /** The chain the view shows, as plain values: the path to the tip. */
    ghost function View(): seq<BlockNode>
      requires Valid()
      reads this, nodes
    {
      if length == 0 then [] else Path(nodes[length - 1].value)
    }

    constructor ()
      ensures Valid() && fresh(nodes) && View() == []
    {
      nodes := new Option<BlockNode>[0];
      length := 0;
    }

    function Tip(): (tip: Option<BlockNode>)
      requires Valid()
      reads this, nodes
      ensures tip == if View() == [] then None else Some(View()[|View()| - 1])
    {
      if length == 0 then None else nodes[length - 1]
    }

    function NodeByHeight(height: int): (n: Option<BlockNode>)
      requires Valid()
      reads this, nodes
      ensures n == if 0 <= height < |View()| then Some(View()[height]) else None
    {
      if height < 0 || height >= length then None else
        PathAt(nodes[length - 1].value, height);
        nodes[height]
    }

    predicate Contains(n: BlockNode)
      requires Valid()
      reads this, nodes
      ensures Contains(n) <==> View() != [] && IsAncestor(n, View()[|View()| - 1])
    {
      if Height(n) < length then PathAt(nodes[length - 1].value, Height(n)); NodeByHeight(Height(n)) == Some(n)
      else NodeByHeight(Height(n)) == Some(n)
    }

    function Next(n: Option<BlockNode>): (next: Option<BlockNode>)
      requires Valid()
      reads this, nodes
      ensures next.Some? <==> n.Some? && Contains(n.value) && Height(n.value) + 1 < |View()|
      ensures next.Some? ==> next.value.Child? && next.value.parent == n.value && Contains(next.value)
    {
      if n.None? || !Contains(n.value) then None else
        var h := Height(n.value) + 1;
        if h < length then AtParent(nodes[length - 1].value, h); AtHeight(nodes[length - 1].value, h); NodeByHeight(h)
        else NodeByHeight(h)
    }

    /** Makes `tip` the tip.  The backing array is reused when it is large enough, and the
        walk towards genesis stops at the first entry that is already right. */
    method SetTip(tip: Option<BlockNode>)
      requires Valid()
      modifies this, nodes
      ensures Valid() && (nodes == old(nodes) || fresh(nodes))
      ensures View() == if tip.None? then [] else Path(tip.value)
      ensures Tip() == tip && length == if tip.None? then 0 else Height(tip.value) + 1
    {
      if tip.None? {
        length := 0;
        return;
      }
      ghost var before := nodes[..length];
      Resize(Height(tip.value) + 1);
      Fill(tip.value, before);
    }

    /** Overwrites entries from the tip down to the first one that is already right. */
    method Fill(tip: BlockNode, ghost before: seq<Option<BlockNode>>)
      requires length == Height(tip) + 1 <= nodes.Length
      requires forall i :: 0 <= i < length ==> nodes[i] == if i < |before| then before[i] else None
      requires IsChain(before)
      modifies nodes
      ensures forall i :: 0 <= i < length ==> nodes[i] == Some(At(tip, i))
    {
      var n := Some(tip);
      while n.Some? && nodes[Height(n.value)] != n
        invariant n.Some? ==> Height(n.value) < length && n.value == At(tip, Height(n.value))
        invariant forall i :: (if n.Some? then Height(n.value) + 1 else 0) <= i < length ==>
                  nodes[i] == Some(At(tip, i))
        invariant n.Some? ==> forall i :: 0 <= i <= Height(n.value) ==>
                    nodes[i] == if i < |before| then before[i] else None
        decreases if n.Some? then Height(n.value) + 1 else 0
      {
        var h := Height(n.value);
        nodes[h] := n;
        if h > 0 { AtParent(tip, h); AtHeight(tip, h - 1); }
        n := ParentOf(n.value);
      }
      if n.Some? { SettledBelow(before, tip, Height(n.value)); }
    }

    /** The entries are the path to the last of them. */
    static ghost predicate IsChain(entries: seq<Option<BlockNode>>) {
      entries != [] ==>
        var last := entries[|entries| - 1];
        && last.Some? && Height(last.value) == |entries| - 1
        && forall i :: 0 <= i < |entries| ==> entries[i] == Some(At(last.value, i))
    }

    /** Everything below a matching entry already lies on the new chain. */
    static lemma SettledBelow(before: seq<Option<BlockNode>>, t: BlockNode, h: nat)
      requires h <= Height(t) && h < |before| && before[h] == Some(At(t, h))
      requires IsChain(before)
      ensures forall i :: 0 <= i <= h ==> before[i] == Some(At(t, i))
    {
      forall i | 0 <= i <= h
        ensures before[i] == Some(At(t, i))
      {
        SharedBelow(before[|before| - 1].value, t, h, i);
      }
    }

    /** Grows or shrinks the slice, clearing entries exposed by growth. */
    method Resize(needed: nat)
      requires length <= nodes.Length
      modifies this, nodes
      ensures length == needed <= nodes.Length && (nodes == old(nodes) || fresh(nodes))
      ensures forall i :: 0 <= i < needed ==> nodes[i] == if i < old(length) then old(nodes[..])[i] else None
    {
      if nodes.Length < needed {
        var grown := new Option<BlockNode>[needed + APPROX_NODES_PER_WEEK](_ => None);
        for i := 0 to length
          invariant nodes == old(nodes) && length == old(length) && nodes[..] == old(nodes[..])
          invariant forall j :: 0 <= j < i ==> grown[j] == nodes[j]
          invariant forall j :: i <= j < grown.Length ==> grown[j] == None
        {
          grown[i] := nodes[i];
        }
        nodes := grown;
      } else {
        var i := length;
        while i < needed
          invariant nodes == old(nodes) && length == old(length)
          invariant i <= needed || i == length
          invariant forall j :: 0 <= j < nodes.Length && (j < length || j >= i) ==> nodes[j] == old(nodes[..])[j]
          invariant forall j :: length <= j < i && j < nodes.Length ==> nodes[j] == None
        {
          nodes[i] := None;
          i := i + 1;
        }
      }
      length := needed;
    }

    /** The last block n's chain has in common with the view. */
    method FindFork(n: Option<BlockNode>) returns (fork: Option<BlockNode>)
      requires Valid()
      ensures n.None? || View() == [] ==> fork.None?
      ensures n.Some? && View() != [] ==>
                if Root(n.value) == Root(View()[|View()| - 1]) then fork == Some(Fork(View()[|View()| - 1], n.value))
                else fork.None?
    {
      if n.None? { return None; }
      fork := n;
      if length == 0 { return None; }
      ghost var tip := View()[|View()| - 1];
      if Height(n.value) > length - 1 {
        fork := Ancestor(n.value, length - 1);
        AtAt(n.value, length - 1, 0);
        if Root(tip) == Root(n.value) { ForkSkips(tip, n.value, length - 1); }
      }
      while fork.Some? && !Contains(fork.value)
        invariant fork.Some? ==> Root(fork.value) == Root(n.value)
        invariant fork.Some? && Root(tip) == Root(n.value) ==> Fork(tip, fork.value) == Fork(tip, n.value)
        invariant fork.None? ==> Root(tip) != Root(n.value)
        decreases if fork.Some? then Height(fork.value) + 1 else 0
      {
        if Height(fork.value) > 0 {
          AtParent(fork.value, Height(fork.value));
          AtAt(fork.value, Height(fork.value) - 1, 0);
        }
        fork := ParentOf(fork.value);
      }
      if fork.Some? { AtAt(tip, Height(fork.value), 0); }
    }

    /** Dropping the part of n's chain that is higher than the tip keeps the fork point. */
    static lemma {:induction false} ForkSkips(tip: BlockNode, n: BlockNode, h: nat)
      requires Root(tip) == Root(n) && Height(tip) <= h <= Height(n)
      ensures Root(At(n, h)) == Root(n) && Fork(tip, At(n, h)) == Fork(tip, n)
    {
      AtAt(n, h, 0);
      if h < Height(n) {
        AtAt(n, Height(n) - 1, 0);
        ForkSkips(tip, n.parent, h);
      }
    }

    /** The ancestor of n at the given height: a direct lookup when n is in the view, whose
        ancestors then are too, and a walk otherwise. */
    method AncestorInView(n: BlockNode, height: nat) returns (a: BlockNode)
      requires Valid() && height <= Height(n)
      ensures a == At(n, height)
    {
      if Contains(n) {
        PathAt(nodes[length - 1].value, Height(n));
        SharedBelow(n, nodes[length - 1].value, Height(n), height);
        a := nodes[height].value;
      } else {
        var found := Ancestor(n, height);
        a := found.value;
      }
    }

    /** Hashes that locate a block in any other node's chain: dense near the block,
        exponentially sparse towards genesis.  Without a block, the tip is located. */
    method BlockLocator(from: Option<BlockNode>) returns (locator: seq<Hash>)
      requires Valid()
      ensures var start := if from.Some? then from else Tip();
              locator == if start.None? then [] else Locator(start.value, LocatorLength(Height(start.value)))
    {
      var start := if from.Some? then from else Tip();
      if start.None? { return []; }
      locator := LocatorFrom(start.value);
    }

    method LocatorFrom(start: BlockNode) returns (locator: seq<Hash>)
      requires Valid()
      ensures locator == Locator(start, LocatorLength(Height(start)))
    {
      hide Pow2, Log2, LocatorLength;
      locator := [];
      var n, step := start, 1;
      while Height(n) > 0
        invariant Height(n) == EntryHeight(Height(start), |locator|) && n == At(start, Height(n))
        invariant step == StepAfter(|locator|)
        invariant |locator| > 0 ==> Distance(|locator| - 1) < Height(start)
        invariant locator == Locator(start, |locator|)
        decreases Height(n)
      {
        NextEntry(start, |locator|);
        var height := if Height(n) - step < 0 then 0 else Height(n) - step;
        locator := locator + [n.block.hash];
        n := AncestorInView(n, height);
        if |locator| > 10 {
          step := step * 2;
        }
      }
      LengthReached(Height(start), |locator|);
      locator := locator + [n.block.hash];
    }
  }

  /** Walks back from n to the given height. */
  method Ancestor(n: BlockNode, height: int) returns (a: Option<BlockNode>)
    ensures a == if 0 <= height <= Height(n) then Some(At(n, height)) else None
  {
    if height < 0 || height > Height(n) { return None; }
    var m := n;
    while Height(m) != height
      invariant height <= Height(m) <= Height(n) && m == At(n, Height(m))
      decreases Height(m)
    {
      AtParent(n, Height(m));
      AtHeight(n, Height(m) - 1);
      m := m.parent;
    }
    a := Some(m);
  }
}

/** The positions a block locator lists and how many there are. */
module Locators {
  import opened Ledger
  import opened BlockTree

  function Pow2(k: nat): (p: nat)
    ensures p > 0
  {
    if k == 0 then 1 else 2 * Pow2(k - 1)
  }

  /** Floor of the base-two logarithm, zero for zero. */
  function Log2(n: nat): nat {
    if n < 2 then 0 else 1 + Log2(n / 2)
  }

  /** How far below its start a locator's entry i is, before clamping at genesis. */
  function Distance(i: nat): nat {
    if i <= 10 then i else 9 + Pow2(i - 10)
  }

  function StepAfter(i: nat): nat {
    if i <= 10 then 1 else Pow2(i - 10)
  }

  function EntryHeight(top: nat, i: nat): nat {
    if Distance(i) >= top then 0 else top - Distance(i)
  }

  function LocatorLength(top: nat): nat {
    if top <= 12 then top + 1 else 12 + Log2(top - 10)
  }

  /** The first k locator entries for `start`. */
  function Locator(start: BlockNode, k: nat): (hashes: seq<Hash>)
    ensures |hashes| == k
    ensures forall i :: 0 <= i < k ==> hashes[i] == At(start, EntryHeight(Height(start), i)).block.hash
  {
    if k == 0 then [] else Locator(start, k - 1) + [At(start, EntryHeight(Height(start), k - 1)).block.hash]
  }

  lemma NextDistance(i: nat)
    ensures Distance(i + 1) == Distance(i) + StepAfter(i)
    ensures StepAfter(i + 1) == if i + 1 > 10 then 2 * StepAfter(i) else StepAfter(i)
  {
    if i == 10 { assert Pow2(1) == 2 * Pow2(0); }
  }

  /** From entry i of a locator for `start`, stepping down reaches entry i + 1. */
  lemma NextEntry(start: BlockNode, i: nat)
    requires EntryHeight(Height(start), i) > 0
    ensures Distance(i) < Height(start) && StepAfter(i) <= Height(start)
    ensures var h, step := EntryHeight(Height(start), i), StepAfter(i);
            var next := if h - step < 0 then 0 else h - step;
            && EntryHeight(Height(start), i + 1) == next <= h
            && Height(At(start, h)) == h && At(At(start, h), next) == At(start, next)
            && Height(At(start, next)) == next
    ensures StepAfter(i + 1) == if i + 1 > 10 then 2 * StepAfter(i) else StepAfter(i)
  {
    NextDistance(i);
    var h, next := EntryHeight(Height(start), i), EntryHeight(Height(start), i + 1);
    AtAt(start, h, next);
    AtHeight(start, next);
  }

  lemma {:induction false} Log2Of(n: nat, k: nat)
    requires Pow2(k) <= n < Pow2(k + 1)
    ensures Log2(n) == k
  {
    if k > 0 {
      assert Pow2(k) == 2 * Pow2(k - 1);
      Log2Of(n / 2, k - 1);
    } else {
      assert Pow2(1) == 2 * Pow2(0);
    }
  }

  lemma {:induction false} Log2Bounds(n: nat)
    requires n > 0
    ensures Pow2(Log2(n)) <= n < Pow2(Log2(n) + 1)
  {
    if n < 2 {
      assert Pow2(1) == 2 * Pow2(0);
    } else {
      Log2Bounds(n / 2);
      assert Pow2(Log2(n) + 1) == 2 * Pow2(Log2(n));
    }
  }

  lemma {:induction false} Pow2Mono(a: nat, b: nat)
    requires a <= b
    ensures Pow2(a) <= Pow2(b)
  {
    if a < b { Pow2Mono(a, b - 1); }
  }

  /** The locator stops at the first entry that reaches genesis. */
  lemma LengthReached(top: nat, i: nat)
    requires Distance(i) >= top && (i > 0 ==> Distance(i - 1) < top)
    ensures i + 1 == LocatorLength(top)
  {
    SmallDistances();
    if i <= 10 {
    } else if i == 11 {
    } else if i == 12 {
      if top > 12 { Log2Of(top - 10, 1); }
    } else {
      Pow2Mono(2, i - 11);
      Log2Of(top - 10, i - 11);
    }
  }

  lemma SmallDistances()
    ensures Pow2(0) == 1 && Pow2(1) == 2 && Pow2(2) == 4
    ensures Distance(11) == 11 && Distance(12) == 13
  {
    assert Pow2(1) == 2 * Pow2(0) && Pow2(2) == 2 * Pow2(1);
  }

}
