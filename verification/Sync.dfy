/** Serving other nodes: block locators and resuming at a shared block. */
module Sync {
  import opened Options
  import opened Ledger
  import opened BlockTree
  import opened Locators
  import opened ChainViews

  // ----- what a locator lists

  lemma {:induction false} DistanceGrows(i: nat, j: nat)
    requires i < j
    ensures Distance(i) < Distance(j)
  {
    NextDistance(j - 1);
    if i < j - 1 { DistanceGrows(i, j - 1); }
  }

  /** Exactly the last entry has reached genesis. */
  lemma LocatorEnds(top: nat)
    ensures LocatorLength(top) > 0 && Distance(LocatorLength(top) - 1) >= top
    ensures forall i :: 0 <= i < LocatorLength(top) - 1 ==> Distance(i) < top
  {
    hide Log2, Pow2;
    SmallDistances();
    var last := LocatorLength(top) - 1;
    if top > 12 {
      Log2Bounds(top - 10);
      var k := Log2(top - 10);
      assert k >= 1 by { Log2Of(2, 1); if k == 0 { assert Pow2(1) == 2; } }
      assert Distance(10 + k) == 9 + Pow2(k) < top;
      assert Distance(11 + k) == 9 + Pow2(k + 1) >= top;
    }
    forall i | 0 <= i < last
      ensures Distance(i) < top
    {
      if top > 12 && i < last - 1 { DistanceGrows(i, last - 1); }
    }
  }

  /** A locator descends strictly and ends at genesis. */
  lemma LocatorDescends(top: nat, i: nat, j: nat)
    requires i < j < LocatorLength(top)
    ensures EntryHeight(top, i) > EntryHeight(top, j)
    ensures EntryHeight(top, LocatorLength(top) - 1) == 0
  {
    LocatorEnds(top);
    DistanceGrows(i, j);
  }

  // ----- resuming

  /** The first locator entry that is known and lies on the chain ending in tip. */
  function FirstShared(index: map<Hash, BlockNode>, tip: BlockNode, locator: seq<Hash>): Option<BlockNode> {
    if locator == [] then None
    else if locator[0] in index && IsAncestor(index[locator[0]], tip) then Some(index[locator[0]])
    else FirstShared(index, tip, locator[1..])
  }

  lemma {:induction false} FirstSharedAt(index: map<Hash, BlockNode>, tip: BlockNode, locator: seq<Hash>, i: nat)
    requires i < |locator| && locator[i] in index && IsAncestor(index[locator[i]], tip)
    requires forall j :: 0 <= j < i ==> !(locator[j] in index && IsAncestor(index[locator[j]], tip))
    ensures FirstShared(index, tip, locator) == Some(index[locator[i]])
  {
    if i > 0 { FirstSharedAt(index, tip, locator[1..], i - 1); }
  }

  /** The index knows the chain ending in tip, and hashes identify nodes of the chain
      being located. */
  ghost predicate Knows(index: map<Hash, BlockNode>, tip: BlockNode, start: BlockNode) {
    && (forall h :: 0 <= h <= Height(tip) ==> At(tip, h).block.hash in index)
    && (forall h :: 0 <= h <= Height(start) ==>
          At(start, h).block.hash in index ==> index[At(start, h).block.hash] == At(start, h))
  }

  /** The first locator entry at least d below its start. */
  lemma ResumeEntry(top: nat, d: nat) returns (i: nat)
    requires d <= top
    ensures i < LocatorLength(top) && Distance(i) >= d
    ensures forall j :: 0 <= j < i ==> Distance(j) < d
    ensures d <= 11 ==> Distance(i) == d
    ensures d > 11 ==> Distance(i) < 2 * d
  {
    LocatorEnds(top);
    SmallDistances();
    i := 0;
    while Distance(i) < d
      invariant i < LocatorLength(top)
      invariant forall j :: 0 <= j < i ==> Distance(j) < d
      decreases LocatorLength(top) - i
    {
      i := i + 1;
    }
    if i > 0 { NextDistance(i - 1); }
  }

  /** A peer whose best chain leaves the located chain d blocks below the located block
      resumes exactly at the fork point when d is at most 11, and otherwise fewer than d
      blocks below it. */
  lemma PeerResumes(index: map<Hash, BlockNode>, tip: BlockNode, start: BlockNode)
    requires Root(tip) == Root(start) && Knows(index, tip, start)
    ensures var fork := Fork(tip, start);
            var d := Height(start) - Height(fork);
            var resume := FirstShared(index, tip, Locator(start, LocatorLength(Height(start))));
            && resume.Some? && IsAncestor(resume.value, fork)
            && (d <= 11 ==> resume.value == fork)
            && (d > 11 ==> Height(fork) - Height(resume.value) < d)
  {
    var fork, top := Fork(tip, start), Height(start);
    var i := ResumeEntry(top, top - Height(fork));
    var locator := Locator(start, LocatorLength(top));
    forall j | 0 <= j < i
      ensures !(locator[j] in index && IsAncestor(index[locator[j]], tip))
    {
      SharedUpToFork(tip, start, EntryHeight(top, j));
    }
    var h := EntryHeight(top, i);
    SharedUpToFork(tip, start, h);
    AtHeight(start, h);
    assert locator[i] == At(tip, h).block.hash;
    FirstSharedAt(index, tip, locator, i);
    AtAt(start, Height(fork), h);
  }

  // ----- answering a locator

  /** The block after the first shared one, and how many blocks to send from there. */
  method LocateInventory(view: ChainView, index: map<Hash, BlockNode>, locator: seq<Hash>, hashStop: Hash,
                         maxEntries: nat) returns (start: Option<BlockNode>, total: nat)
    requires view.Valid() && view.View() != []
    ensures locator == [] ==>
              if hashStop in index then start == Some(index[hashStop]) && total == 1 else start.None? && total == 0
    ensures locator != [] ==>
              var tip := view.View()[|view.View()| - 1];
              var shared := FirstShared(index, tip, locator);
              var first := 1 + if shared.Some? then Height(shared.value) else 0;
              if first > Height(tip) then start.None? && total == 0 else
                && start == Some(view.View()[first]) && Height(start.value) == first
                && total == Smaller(maxEntries, InventorySize(index, tip, hashStop, first))
    ensures locator != [] && start.Some? ==>
              view.Contains(start.value) && Height(start.value) + total <= |view.View()|
  {
    if locator == [] {
      if hashStop !in index { return None, 0; }
      return Some(index[hashStop]), 1;
    }
    ghost var tip := view.View()[|view.View()| - 1];
    var shared := view.NodeByHeight(0);
    PathAt(tip, 0);
    AtHeight(tip, 0);
    var i := 0;
    while i < |locator|
      invariant 0 <= i <= |locator|
      invariant FirstShared(index, tip, locator[i..]) == FirstShared(index, tip, locator)
    {
      if locator[i] in index && view.Contains(index[locator[i]]) {
        shared := Some(index[locator[i]]);
        break;
      }
      i := i + 1;
    }
    assert view.Contains(shared.value);
    start := view.Next(shared);
    if start.None? { return None, 0; }
    PathAt(tip, Height(start.value));
    total := view.length - Height(start.value);
    if hashStop in index && view.Contains(index[hashStop]) && Height(index[hashStop]) >= Height(start.value) {
      total := Height(index[hashStop]) - Height(start.value) + 1;
    }
    if total > maxEntries {
      total := maxEntries;
    }
  }

  function Smaller(a: nat, b: nat): nat { if a < b then a else b }

  /** Blocks from height `first` up to the stop block, or up to the tip when the stop block
      is not on the best chain at or above `first`. */
  function InventorySize(index: map<Hash, BlockNode>, tip: BlockNode, hashStop: Hash, first: nat): nat
    requires first <= Height(tip)
  {
    if hashStop in index && IsAncestor(index[hashStop], tip) && Height(index[hashStop]) >= first
    then Height(index[hashStop]) - first + 1
    else Height(tip) - first + 1
  }

  /** The hashes of consecutive best-chain blocks from the located start. */
  method LocateBlocks(view: ChainView, index: map<Hash, BlockNode>, locator: seq<Hash>, hashStop: Hash,
                      maxHashes: nat) returns (hashes: seq<Hash>)
    requires view.Valid() && view.View() != []
    ensures locator == [] ==> hashes == if hashStop in index then [index[hashStop].block.hash] else []
    ensures locator != [] ==>
              var tip := view.View()[|view.View()| - 1];
              var shared := FirstShared(index, tip, locator);
              var first := 1 + if shared.Some? then Height(shared.value) else 0;
              if first > Height(tip) then hashes == [] else
                && |hashes| == Smaller(maxHashes, InventorySize(index, tip, hashStop, first))
                && first + |hashes| <= |view.View()|
                && (forall k :: 0 <= k < |hashes| ==> hashes[k] == view.View()[first + k].block.hash)
                && EndsRight(hashes, index, tip, hashStop, maxHashes, first)
  {
    hide EndsRight, InventorySize, FirstShared, Path;
    var node, total := LocateInventory(view, index, locator, hashStop, maxHashes);
    hashes := [];
    if total > 0 { hashes := CollectHashes(view, node.value, total); }
    if locator != [] && node.Some? {
      EndsAt(index, view.View()[|view.View()| - 1], hashStop, maxHashes, Height(node.value), hashes);
    }
  }

  lemma EndsAt(index: map<Hash, BlockNode>, tip: BlockNode, hashStop: Hash, maxHashes: nat, first: nat,
               hashes: seq<Hash>)
    requires first <= Height(tip) && |hashes| == Smaller(maxHashes, InventorySize(index, tip, hashStop, first))
    requires first + |hashes| <= Height(tip) + 1
    requires hashes != [] ==> hashes[|hashes| - 1] == Path(tip)[first + |hashes| - 1].block.hash
    ensures EndsRight(hashes, index, tip, hashStop, maxHashes, first)
  {
    if hashes != [] { PathAt(tip, first + |hashes| - 1); }
  }

  /** The answer ends with the stop block if that is on the best chain at or above the start, and
      else with the tip, unless the limit cuts it off before. */
  predicate EndsRight(hashes: seq<Hash>, index: map<Hash, BlockNode>, tip: BlockNode, hashStop: Hash, maxHashes: nat,
                      first: nat) {
    var last :=
      if hashStop in index && IsAncestor(index[hashStop], tip) && Height(index[hashStop]) >= first then index[hashStop]
      else tip;
    if first + maxHashes <= Height(last) then |hashes| == maxHashes
    else hashes != [] && |hashes| <= maxHashes && hashes[|hashes| - 1] == last.block.hash
  }

  /** The hashes of the node and its successors in the view. */
  method CollectHashes(view: ChainView, start: BlockNode, total: nat) returns (hashes: seq<Hash>)
    requires view.Valid() && total > 0
    requires total > 1 ==> view.Contains(start) && Height(start) + total <= |view.View()|
    ensures |hashes| == total && hashes[0] == start.block.hash
    ensures forall k :: 0 < k < total ==> hashes[k] == view.View()[Height(start) + k].block.hash
  {
    hide At, Path;
    var node := start;
    hashes := [node.block.hash];
    ghost var chain, first := view.View(), Height(start);
    if total > 1 { PathAt(chain[|chain| - 1], first); }
    while |hashes| < total
      invariant 0 < |hashes| <= total && hashes[0] == start.block.hash
      invariant total > 1 ==> node == chain[first + |hashes| - 1]
      invariant forall k :: 0 < k < |hashes| ==> hashes[k] == chain[first + k].block.hash
    {
      FollowNext(chain, first + |hashes| - 1);
      var next := view.Next(Some(node));
      node := next.value;
      PathAt(chain[|chain| - 1], first + |hashes|);
      hashes := hashes + [node.block.hash];
    }
  }

  lemma FollowNext(chain: seq<BlockNode>, h: nat)
    requires h + 1 < |chain| && chain == Path(chain[|chain| - 1])
    ensures Height(chain[h]) == h && IsAncestor(chain[h], chain[|chain| - 1])
    ensures Height(chain[h + 1]) == h + 1
  {
    PathAt(chain[|chain| - 1], h);
    PathAt(chain[|chain| - 1], h + 1);
    AtHeight(chain[|chain| - 1], h);
    AtHeight(chain[|chain| - 1], h + 1);
  }
}
