/** The merkle tree in a linear array with nil padding, and branches extracted from it. */
module Merkle {
  import opened Options
  import opened Ledger
  import opened Locators

  /** The hash of two concatenated hashes. */
  type Combiner = (Hash, Hash) -> Hash

  // ----- the tree as the protocol defines it

  /** One level up: hashes of pairs, the last node paired with itself when the level is odd. */
  function Up(h: Combiner, level: seq<Hash>): (up: seq<Hash>)
    ensures |up| == (|level| + 1) / 2
  {
    if |level| == 0 then []
    else if |level| == 1 then [h(level[0], level[0])]
    else [h(level[0], level[1])] + Up(h, level[2..])
  }

  lemma {:induction false} UpAt(h: Combiner, level: seq<Hash>, k: nat)
    requires k < |Up(h, level)|
    ensures Up(h, level)[k] == h(level[2 * k], level[if 2 * k + 1 < |level| then 2 * k + 1 else 2 * k])
  {
    if k > 0 { UpAt(h, level[2..], k - 1); }
  }

  function Root(h: Combiner, level: seq<Hash>): Hash
    requires level != []
    decreases |level|
  {
    if |level| == 1 then level[0] else Root(h, Up(h, level))
  }

  /** One, two and three leaves. */
  lemma KnownRoots(h: Combiner, a: Hash, b: Hash, c: Hash)
    ensures Root(h, [a]) == a && Root(h, [a, b]) == h(a, b)
    ensures Root(h, [a, b, c]) == h(h(a, b), h(c, c))
  {
    assert [a, b][2..] == [] && [a, b, c][2..] == [c];
    assert Up(h, [a, b]) == [h(a, b)];
    var up := [h(a, b), h(c, c)];
    assert Up(h, [a, b, c]) == up;
    assert up[2..] == [] && Up(h, up) == [h(h(a, b), h(c, c))];
    assert Root(h, [h(h(a, b), h(c, c))]) == h(h(a, b), h(c, c));
    assert Root(h, up) == Root(h, Up(h, up));
  }

  // ----- powers of two

  /** The number of levels above the leaves. */
  function Depth(n: nat): nat {
    if n <= 1 then 0 else 1 + Depth((n + 1) / 2)
  }

  lemma {:induction false} DepthBounds(n: nat)
    requires n > 0
    ensures n <= Pow2(Depth(n)) && (n > 1 ==> Pow2(Depth(n) - 1) < n)
  {
    if n > 1 {
      DepthBounds((n + 1) / 2);
      if n > 2 { assert Pow2(Depth(n) - 1) == 2 * Pow2(Depth((n + 1) / 2) - 1); }
    }
  }

  /** n itself when it is a power of two, else the next one above it. */
  function NextPowerOfTwo(n: nat): (p: nat)
    requires n > 0
    ensures p == Pow2(Depth(n))
  {
    DepthBounds(n);
    Log2Bounds(n);
    PowersApart(n);
    if n == Pow2(Log2(n)) then n else Pow2(Log2(n) + 1)
  }

  lemma PowersApart(n: nat)
    requires n > 0
    ensures Depth(n) == if n == Pow2(Log2(n)) then Log2(n) else Log2(n) + 1
  {
    DepthBounds(n);
    Log2Bounds(n);
    var d, k := Depth(n), Log2(n);
    if n == Pow2(k) {
      if d < k { Pow2Strict(d, k); }
      if d > k { Pow2Mono(k, d - 1); }
    } else {
      if d <= k { Pow2Mono(d, k); }
      if d > k + 1 { Pow2Mono(k + 1, d - 1); }
    }
  }

  lemma {:induction false} Pow2Strict(a: nat, b: nat)
    requires a < b
    ensures Pow2(a) < Pow2(b)
  {
    Pow2Mono(a, b - 1);
  }

  // ----- the array

  /** A level padded with nil to a full power of two. */
  function Pad(level: seq<Hash>, size: nat): (s: seq<Option<Hash>>)
    requires |level| <= size
    ensures |s| == size
    ensures forall i :: 0 <= i < size ==> s[i] == if i < |level| then Some(level[i]) else None
  {
    seq(size, i requires 0 <= i < size => if i < |level| then Some(level[i]) else None)
  }

  /** All padded levels one after the other, leaves first. */
  function Layout(h: Combiner, level: seq<Hash>, d: nat): (s: seq<Option<Hash>>)
    requires |level| <= Pow2(d)
    ensures |s| == 2 * Pow2(d) - 1
    decreases d
  {
    Pad(level, Pow2(d)) + if d == 0 then [] else Layout(h, Up(h, level), d - 1)
  }

  /** The parent slot's value from its children's slots. */
  function Parent(h: Combiner, left: Option<Hash>, right: Option<Hash>): Option<Hash> {
    if left.None? then None
    else if right.None? then Some(h(left.value, left.value))
    else Some(h(left.value, right.value))
  }

  /** In the layout every parent slot holds its children's combination. */
  lemma {:induction false} LayoutStep(h: Combiner, level: seq<Hash>, d: nat, k: nat)
    requires |level| <= Pow2(d) && k < Pow2(d) - 1
    ensures var s := Layout(h, level, d);
            Pow2(d) + k < |s| && 2 * k + 1 < |s| && s[Pow2(d) + k] == Parent(h, s[2 * k], s[2 * k + 1])
    decreases d
  {
    assert d == 0 ==> Pow2(d) == 1;
    if d > 0 {
      var half := Pow2(d - 1);
      assert Pow2(d) == 2 * half;
      hide Layout, Up, Pow2;
      if k < half {
        LeafParent(h, level, d, k);
      } else {
        var j := k - half;
        LayoutStep(h, Up(h, level), d - 1, j);
        LayoutAbove(h, level, d, half + j);
        LayoutAbove(h, level, d, 2 * j);
        LayoutAbove(h, level, d, 2 * j + 1);
      }
    }
  }

  lemma LayoutAbove(h: Combiner, level: seq<Hash>, d: nat, i: nat)
    requires d > 0 && |level| <= Pow2(d) && i < Pow2(d) - 1
    ensures Pow2(d) == 2 * Pow2(d - 1)
    ensures Layout(h, level, d)[Pow2(d) + i] == Layout(h, Up(h, level), d - 1)[i]
  {
    hide Up;
  }

  lemma LeafParent(h: Combiner, level: seq<Hash>, d: nat, k: nat)
    requires d > 0 && |level| <= Pow2(d) && k < Pow2(d - 1)
    ensures var s := Layout(h, level, d); s[Pow2(d) + k] == Parent(h, s[2 * k], s[2 * k + 1])
  {
    var s, up := Layout(h, level, d), Up(h, level);
    var above := Layout(h, up, d - 1);
    if k < |up| { UpAt(h, level, k); }
    assert above[k] == Pad(up, Pow2(d - 1))[k];
    assert s[Pow2(d) + k] == above[k];
    assert s[2 * k] == Pad(level, Pow2(d))[2 * k] && s[2 * k + 1] == Pad(level, Pow2(d))[2 * k + 1];
  }

  lemma {:induction false} LastIsRoot(h: Combiner, level: seq<Hash>)
    requires level != []
    ensures |level| <= Pow2(Depth(|level|))
    ensures var s := Layout(h, level, Depth(|level|)); s[|s| - 1] == Some(Root(h, level))
    decreases |level|
  {
    hide Up, Pad, Pow2;
    DepthBounds(|level|);
    if |level| == 1 {
      SingleLayout(h, level);
    } else {
      LastIsRoot(h, Up(h, level));
      var above := Layout(h, Up(h, level), Depth(|level|) - 1);
      assert Layout(h, level, Depth(|level|))[Pow2(Depth(|level|)) + |above| - 1] == above[|above| - 1];
    }
  }

  lemma SingleLayout(h: Combiner, level: seq<Hash>)
    requires |level| == 1
    ensures Pow2(0) == 1 && Layout(h, level, 0) == [Some(level[0])]
  {
  }

  /** Builds the array with a single moving offset.  The last slot is the root of the
      duplicate-last tree, for any positive number of leaves. */
  method BuildMerkleTreeStore(h: Combiner, leaves: seq<Hash>) returns (merkles: array<Option<Hash>>)
    requires leaves != []
    ensures |leaves| <= Pow2(Depth(|leaves|)) && merkles[..] == Layout(h, leaves, Depth(|leaves|))
    ensures merkles.Length > 0 && merkles[merkles.Length - 1] == Some(Root(h, leaves))
  {
    hide Layout, Up, Root, Pad, Pow2, Depth;
    DepthBounds(|leaves|);
    LastIsRoot(h, leaves);
    var nextPoT := NextPowerOfTwo(|leaves|);
    var arraySize := nextPoT * 2 - 1;
    ghost var d := Depth(|leaves|);
    ghost var layout := Layout(h, leaves, d);
    merkles := new Option<Hash>[arraySize](_ => None);
    for i := 0 to |leaves|
      invariant forall j :: 0 <= j < arraySize ==> merkles[j] == if j < i then Some(leaves[j]) else None
    {
      merkles[i] := Some(leaves[i]);
    }
    LayoutLeaves(h, leaves, d);
    FillParents(h, merkles, leaves, d);
    assert merkles[..] == layout;
  }

  lemma LayoutLeaves(h: Combiner, level: seq<Hash>, d: nat)
    requires |level| <= Pow2(d)
    ensures forall i :: 0 <= i < Pow2(d) ==> Layout(h, level, d)[i] == if i < |level| then Some(level[i]) else None
  {
    hide Up;
  }

  /** Computes every parent slot from its two children, in order. */
  method FillParents(h: Combiner, merkles: array<Option<Hash>>, ghost leaves: seq<Hash>, ghost d: nat)
    requires |leaves| <= Pow2(d) && merkles.Length == 2 * Pow2(d) - 1
    requires forall j :: 0 <= j < Pow2(d) ==> merkles[j] == Layout(h, leaves, d)[j]
    modifies merkles
    ensures forall j :: 0 <= j < merkles.Length ==> merkles[j] == Layout(h, leaves, d)[j]
  {
    hide Layout, Up, Pad, Pow2;
    var offset, i := merkles.Length / 2 + 1, 0;
    while i < merkles.Length - 1
      invariant 0 <= i <= merkles.Length - 1 && i % 2 == 0 && offset == Pow2(d) + i / 2
      invariant forall j :: 0 <= j < offset ==> merkles[j] == Layout(h, leaves, d)[j]
    {
      LayoutStep(h, leaves, d, i / 2);
      merkles[offset] := Parent(h, merkles[i], merkles[i + 1]);
      offset, i := offset + 1, i + 2;
    }
  }

  // ----- branches

  function Sibling(i: nat): nat { if i % 2 == 0 then i + 1 else i - 1 }

  /** The siblings on the way from leaf i to the root. */
  function Branch(h: Combiner, level: seq<Hash>, d: nat, i: nat): (branch: seq<Option<Hash>>)
    requires |level| <= Pow2(d) && i < Pow2(d)
    ensures |branch| == d
    decreases d
  {
    if d == 0 then [] else [Pad(level, Pow2(d))[Sibling(i)]] + Branch(h, Up(h, level), d - 1, i / 2)
  }

  /** Extracts a branch from the array. */
  method GetMerkleBranch(h: Combiner, ghost leaves: seq<Hash>, ghost d: nat, tree: seq<Option<Hash>>, txIndex: nat)
    returns (branch: seq<Option<Hash>>)
    requires |leaves| <= Pow2(d) && tree == Layout(h, leaves, d) && txIndex < Pow2(d)
    ensures branch == Branch(h, leaves, d, txIndex)
  {
    hide Up, Pad, Layout, Branch, Pow2, Log2;
    branch := [];
    BranchEnds(h, leaves, d, txIndex);
    if |tree| < 2 { return; }
    PowerOf(d);
    var ino: nat, idx: nat, o: nat := txIndex, 0, Log2((|tree| + 1) / 2);
    ghost var level := leaves;
    assert tree[0..] == tree && branch + Branch(h, leaves, d, txIndex) == Branch(h, leaves, d, txIndex);
    while o > 0
      invariant o <= d && idx <= |tree| && ino < Pow2(o) && |level| <= Pow2(o)
      invariant tree[idx..] == Layout(h, level, o)
      invariant branch + Branch(h, level, o, ino) == Branch(h, leaves, d, txIndex)
    {
      BranchStep(h, level, o, ino, branch);
      assert tree[idx..][Sibling(ino)] == tree[idx + Sibling(ino)];
      branch := branch + [tree[idx + Sibling(ino)]];
      assert tree[idx..][Pow2(o)..] == tree[idx + Pow2(o)..];
      idx := idx + Pow2(o);
      ino, o := ino / 2, o - 1;
      level := Up(h, level);
    }
    BranchEnds(h, level, 0, ino);
  }

  lemma PowerOf(d: nat)
    ensures Log2(Pow2(d)) == d
  {
    Log2Of(Pow2(d), d);
  }

  lemma BranchEnds(h: Combiner, level: seq<Hash>, d: nat, i: nat)
    requires |level| <= Pow2(d) && i < Pow2(d)
    ensures d == 0 ==> Branch(h, level, d, i) == []
    ensures |Layout(h, level, d)| < 2 ==> d == 0
  {
    if d > 0 { assert Pow2(d) == 2 * Pow2(d - 1); }
  }

  /** The first entry of a branch and the rest, against the layout. */
  lemma BranchStep(h: Combiner, level: seq<Hash>, d: nat, i: nat, before: seq<Option<Hash>>)
    requires d > 0 && |level| <= Pow2(d) && i < Pow2(d)
    ensures Sibling(i) < Pow2(d) && i / 2 < Pow2(d - 1) && |Up(h, level)| <= Pow2(d - 1)
    ensures before + Branch(h, level, d, i)
         == before + [Layout(h, level, d)[Sibling(i)]] + Branch(h, Up(h, level), d - 1, i / 2)
    ensures Layout(h, level, d)[Pow2(d)..] == Layout(h, Up(h, level), d - 1)
  {
    hide Up;
    assert Pow2(d) == 2 * Pow2(d - 1);
    var first, rest := Layout(h, level, d)[Sibling(i)], Branch(h, Up(h, level), d - 1, i / 2);
    assert before + ([first] + rest) == before + [first] + rest;
  }

  /** Combines a leaf with its branch, reading a nil sibling as the node itself. */
  function Fold(h: Combiner, node: Hash, branch: seq<Option<Hash>>, i: nat): Hash
    decreases branch
  {
    if branch == [] then node else
      var sibling := if branch[0].Some? then branch[0].value else node;
      Fold(h, if i % 2 == 0 then h(node, sibling) else h(sibling, node), branch[1..], i / 2)
  }

  /** A node and its sibling combine to the node above them. */
  lemma SiblingCombines(h: Combiner, level: seq<Hash>, size: nat, i: nat)
    requires i < |level| <= size && Sibling(i) < size
    ensures var slot := Pad(level, size)[Sibling(i)];
            var sibling := if slot.Some? then slot.value else level[i];
            (if i % 2 == 0 then h(level[i], sibling) else h(sibling, level[i])) == Up(h, level)[i / 2]
  {
    hide Up, Pad;
    var k := i / 2;
    if i % 2 == 0 {
      assert i == 2 * k;
      EvenSibling(h, level, size, k);
    } else {
      assert i == 2 * k + 1;
      OddSibling(h, level, size, k);
    }
  }

  lemma EvenSibling(h: Combiner, level: seq<Hash>, size: nat, k: nat)
    requires 2 * k < |level| <= size && 2 * k + 1 < size
    ensures var slot := Pad(level, size)[2 * k + 1];
            h(level[2 * k], if slot.Some? then slot.value else level[2 * k]) == Up(h, level)[k]
  {
    hide Up;
    UpAt(h, level, k);
  }

  lemma OddSibling(h: Combiner, level: seq<Hash>, size: nat, k: nat)
    requires 2 * k + 1 < |level| <= size
    ensures var slot := Pad(level, size)[2 * k]; slot.Some? && h(slot.value, level[2 * k + 1]) == Up(h, level)[k]
  {
    hide Up;
    UpAt(h, level, k);
  }

  /** Folding the branch of any leaf gives the root. */
  lemma {:induction false} BranchProvesLeaf(h: Combiner, level: seq<Hash>, i: nat)
    requires i < |level|
    ensures |level| <= Pow2(Depth(|level|))
    ensures Fold(h, level[i], Branch(h, level, Depth(|level|), i), i) == Root(h, level)
    decreases |level|
  {
    hide Pow2, Pad;
    DepthBounds(|level|);
    if |level| > 1 {
      var d, up := Depth(|level|), Up(h, level);
      BranchProvesLeaf(h, up, i / 2);
      BranchStep(h, level, d, i, []);
      SiblingCombines(h, level, Pow2(d), i);
      var branch := Branch(h, level, d, i);
      assert branch[1..] == Branch(h, up, d - 1, i / 2);
    }
  }

  /** The fold a miner's share is checked with: the running hash always on the left. */
  function LeftFold(h: Combiner, node: Hash, branch: seq<Hash>): Hash
    decreases branch
  {
    if branch == [] then node else LeftFold(h, h(node, branch[0]), branch[1..])
  }

  function Values(branch: seq<Option<Hash>>): (values: seq<Hash>)
    requires forall i :: 0 <= i < |branch| ==> branch[i].Some?
    ensures |values| == |branch| && forall i :: 0 <= i < |values| ==> values[i] == branch[i].value
  {
    seq(|branch|, i requires 0 <= i < |branch| => branch[i].value)
  }

  /** The coinbase branch has no nil and verifies under the left fold. */
  lemma {:induction false} CoinbaseBranch(h: Combiner, level: seq<Hash>)
    requires level != []
    ensures |level| <= Pow2(Depth(|level|))
    ensures var branch := Branch(h, level, Depth(|level|), 0);
            && (forall i :: 0 <= i < |branch| ==> branch[i].Some?)
            && LeftFold(h, level[0], Values(branch)) == Root(h, level)
    decreases |level|
  {
    DepthBounds(|level|);
    if |level| > 1 {
      var d, up := Depth(|level|), Up(h, level);
      UpAt(h, level, 0);
      CoinbaseBranch(h, up);
      var branch, rest := Branch(h, level, d, 0), Branch(h, up, d - 1, 0);
      assert branch == [Some(level[1])] + rest;
      assert Values(branch)[1..] == Values(rest);
    }
  }
}
