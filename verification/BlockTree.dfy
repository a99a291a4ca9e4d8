/** The tree of block nodes.  A node is identified by its header and its ancestry; it
    carries the block its hash commits to. */
module BlockTree {
  import opened Ledger
  import Difficulty

  datatype BlockNode =
    | Genesis(block: Block)
    | Child(parent: BlockNode, block: Block)

  function Height(n: BlockNode): nat {
    if n.Genesis? then 0 else Height(n.parent) + 1
  }

  /** Cumulative work up to and including the node. */
  function WorkSum(n: BlockNode): nat {
    Difficulty.CalcWork(n.block.bits) + if n.Genesis? then 0 else WorkSum(n.parent)
  }

  /** The ancestor of n (or n itself) at the given height. */
  function At(n: BlockNode, height: nat): BlockNode
    requires height <= Height(n)
  {
    if height == Height(n) then n else At(n.parent, height)
  }

  function Root(n: BlockNode): BlockNode { At(n, 0) }

  /** The chain ending in n, genesis first. */
  function Path(n: BlockNode): (path: seq<BlockNode>)
    ensures |path| == Height(n) + 1
    ensures path[Height(n)] == n
  {
    if n.Genesis? then [n] else Path(n.parent) + [n]
  }

  predicate IsAncestor(a: BlockNode, n: BlockNode) {
    Height(a) <= Height(n) && At(n, Height(a)) == a
  }

  lemma {:induction false} AtHeight(n: BlockNode, h: nat)
    requires h <= Height(n)
    ensures Height(At(n, h)) == h
  {
    if h < Height(n) { AtHeight(n.parent, h); }
  }

  lemma {:induction false} AtAt(n: BlockNode, h: nat, g: nat)
    requires g <= h <= Height(n)
    ensures Height(At(n, h)) == h && At(At(n, h), g) == At(n, g)
  {
    AtHeight(n, h);
    if h < Height(n) { AtAt(n.parent, h, g); }
  }

  lemma {:induction false} AtParent(n: BlockNode, h: nat)
    requires 0 < h <= Height(n)
    ensures At(n, h).Child? && At(n, h).parent == At(n, h - 1)
  {
    if h < Height(n) { AtParent(n.parent, h); }
  }

  lemma {:induction false} PathAt(n: BlockNode, h: nat)
    requires h <= Height(n)
    ensures Path(n)[h] == At(n, h)
  {
    if h < Height(n) { PathAt(n.parent, h); }
  }

  lemma AncestorTransitive(a: BlockNode, b: BlockNode, c: BlockNode)
    requires IsAncestor(a, b) && IsAncestor(b, c)
    ensures IsAncestor(a, c)
  {
    AtAt(c, Height(b), Height(a));
  }

  lemma SharedBelow(a: BlockNode, b: BlockNode, h: nat, g: nat)
    requires g <= h <= Height(a) && h <= Height(b) && At(a, h) == At(b, h)
    ensures At(a, g) == At(b, g)
  {
    AtAt(a, h, g);
    AtAt(b, h, g);
  }

  lemma {:induction false} WorkGrows(n: BlockNode, h: nat)
    requires h <= Height(n)
    ensures WorkSum(At(n, h)) <= WorkSum(n)
  {
    if h < Height(n) { WorkGrows(n.parent, h); }
  }

  function SumOfWork(nodes: seq<BlockNode>): nat {
    if nodes == [] then 0
    else SumOfWork(nodes[..|nodes| - 1]) + Difficulty.CalcWork(nodes[|nodes| - 1].block.bits)
  }

  /** Cumulative work is the work of every block from genesis up. */
  lemma {:induction false} WorkIsPathSum(n: BlockNode)
    ensures WorkSum(n) == SumOfWork(Path(n))
  {
    hide Difficulty.CalcWork;
    assert Path(n)[..Height(n)] == if n.Genesis? then [] else Path(n.parent);
    if n.Child? { WorkIsPathSum(n.parent); }
  }

  // ----- fork points

  /** The highest node on the path to n that is also on the path to tip. */
  function Fork(tip: BlockNode, n: BlockNode): (fork: BlockNode)
    requires Root(tip) == Root(n)
    ensures IsAncestor(fork, tip) && IsAncestor(fork, n)
    decreases n
  {
    if IsAncestor(n, tip) then n else
      AtParent(n, Height(n));
      AtAt(n, Height(n) - 1, 0);
      Fork(tip, n.parent)
  }

  lemma {:induction false} ForkIsHighest(tip: BlockNode, n: BlockNode, a: BlockNode)
    requires Root(tip) == Root(n) && IsAncestor(a, tip) && IsAncestor(a, n)
    ensures IsAncestor(a, Fork(tip, n))
  {
    if !IsAncestor(n, tip) {
      AtAt(n, Height(n) - 1, 0);
      ForkIsHighest(tip, n.parent, a);
    }
  }

  /** An ancestor of start is on the chain ending in tip exactly up to the fork point. */
  lemma SharedUpToFork(tip: BlockNode, start: BlockNode, h: nat)
    requires Root(tip) == Root(start) && h <= Height(start)
    ensures IsAncestor(At(start, h), tip) <==> h <= Height(Fork(tip, start))
  {
    var fork := Fork(tip, start);
    AtHeight(start, h);
    if h <= Height(fork) {
      SharedBelow(start, tip, Height(fork), h);
    } else if IsAncestor(At(start, h), tip) {
      AtAt(start, h, h);
      ForkIsHighest(tip, start, At(start, h));
    }
  }

  /** The nodes above `fork` on the way up to n, lowest first. */
  function Above(fork: BlockNode, n: BlockNode): (nodes: seq<BlockNode>)
    requires IsAncestor(fork, n)
    ensures |nodes| == Height(n) - Height(fork)
  {
    if n == fork then [] else Above(fork, n.parent) + [n]
  }

  lemma {:induction false} AboveAt(fork: BlockNode, n: BlockNode, i: nat)
    requires IsAncestor(fork, n) && i < Height(n) - Height(fork)
    ensures Above(fork, n)[i] == At(n, Height(fork) + 1 + i)
  {
    if i < Height(n) - Height(fork) - 1 { AboveAt(fork, n.parent, i); }
  }

  lemma {:induction false} AboveSplit(low: BlockNode, n: BlockNode)
    requires low.Child? && IsAncestor(low, n)
    ensures IsAncestor(low.parent, n) && Above(low.parent, n) == [low] + Above(low, n)
  {
    AtParent(n, Height(low));
    if low == n {
      assert Above(low.parent, n) == Above(low.parent, low.parent) + [n];
    } else {
      AboveSplit(low, n.parent);
    }
  }

  lemma {:induction false} AboveAncestor(low: BlockNode, n: BlockNode, a: BlockNode)
    requires IsAncestor(low, n) && a in Above(low, n)
    ensures IsAncestor(a, n)
  {
    if a != n { AboveAncestor(low, n.parent, a); }
  }

  lemma AboveIsOffChain(tip: BlockNode, n: BlockNode, low: BlockNode, a: BlockNode)
    requires Root(tip) == Root(n) && IsAncestor(Fork(tip, n), low) && IsAncestor(low, n) && a in Above(low, n)
    ensures !IsAncestor(a, tip) && IsAncestor(a, n) && a.Child? && Height(a) > Height(low)
  {
    var i :| 0 <= i < |Above(low, n)| && Above(low, n)[i] == a;
    var h := Height(low) + 1 + i;
    AboveAt(low, n, i);
    AtHeight(n, h);
    AtParent(n, h);
    SharedUpToFork(tip, n, h);
  }

  /** The same nodes, highest first. */
  function Below(n: BlockNode, fork: BlockNode): (nodes: seq<BlockNode>)
    requires IsAncestor(fork, n)
    ensures |nodes| == Height(n) - Height(fork)
  {
    if n == fork then [] else [n] + Below(n.parent, fork)
  }

  lemma {:induction false} BelowEnds(n: BlockNode, fork: BlockNode)
    requires IsAncestor(fork, n) && n != fork
    ensures var nodes := Below(n, fork);
            nodes[0] == n && nodes[|nodes| - 1].Child? && nodes[|nodes| - 1].parent == fork
  {
    if n.parent != fork { BelowEnds(n.parent, fork); }
  }

  lemma {:induction false} BelowAncestor(n: BlockNode, fork: BlockNode, a: BlockNode)
    requires IsAncestor(fork, n) && a in Below(n, fork)
    ensures IsAncestor(a, n) && a.Child?
  {
    if a != n { BelowAncestor(n.parent, fork, a); }
  }

  lemma AboveStarts(fork: BlockNode, n: BlockNode)
    requires IsAncestor(fork, n) && n != fork
    ensures Above(fork, n)[0].Child? && Above(fork, n)[0].parent == fork && IsAncestor(Above(fork, n)[0], n)
    ensures Above(fork, n)[1..] == Above(Above(fork, n)[0], n)
  {
    AboveAt(fork, n, 0);
    AtParent(n, Height(fork) + 1);
    AtHeight(n, Height(fork) + 1);
    AboveSplit(Above(fork, n)[0], n);
  }
}
