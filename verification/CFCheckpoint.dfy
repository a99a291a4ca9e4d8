/** Serving committed-filter checkpoints: the block hashes at regular heights of a chain,
    and the cache of their filter headers that is kept across reorganizations. */
module CFCheckpoints {
  import opened Options
  import opened Ledger
  import opened BlockTree
  import opened ChainRules
  import opened ChainViews

  const CF_CHECKPT_INTERVAL := 1000

  // ----- block hashes at regular heights

  function Times(k: nat, interval: nat): nat { k * interval }

  lemma TimesFits(k: nat, interval: nat, h: nat)
    requires interval > 0 && k <= h / interval
    ensures Times(k, interval) <= h
  {
    assert k * interval <= (h / interval) * interval <= h;
  }

  lemma TimesMonotone(j: nat, k: nat, interval: nat)
    requires j <= k
    ensures Times(j, interval) <= Times(k, interval)
  {
  }

  function HashAt(n: BlockNode, interval: nat, k: nat): Hash {
    if Times(k, interval) <= Height(n) then At(n, Times(k, interval)).block.hash else 0
  }

  /** Hashes of n's ancestors, n included, at the positive multiples of the interval. */
  function IntervalHashes(n: BlockNode, interval: nat): (hashes: seq<Hash>)
    requires interval > 0
    ensures |hashes| == Height(n) / interval
  {
    seq(Height(n) / interval, i => if i >= 0 then HashAt(n, interval, i + 1) else 0)
  }

  lemma HashesAt(n: BlockNode, interval: nat, i: nat)
    requires interval > 0 && i < Height(n) / interval
    ensures IntervalHashes(n, interval)[i] == HashAt(n, interval, i + 1)
  {
  }

  /** The block is known and validated. */
  predicate Requestable(index: map<Hash, BlockNode>, flags: Flags, hash: Hash) {
    hash in index && index[hash] in flags && flags[index[hash]].valid
  }

  /** Walks down from the stop block, through the best chain view once it meets it. */
  method IntervalBlockHashes(view: ChainView, index: map<Hash, BlockNode>, flags: Flags, endHash: Hash, interval: nat)
    returns (r: Option<seq<Hash>>)
    requires view.Valid() && interval > 0
    ensures r == if Requestable(index, flags, endHash) then Some(IntervalHashes(index[endHash], interval)) else None
  {
    if endHash !in index || index[endHash] !in flags || !flags[index[endHash]].valid { return None; }
    var end := index[endHash];
    var hashes := [];
    var node := end;
    var n := Height(end) / interval;
    for k := n downto 0
      invariant Height(node) <= Height(end) && node == At(end, Height(node))
      invariant if k < n then Height(node) == Times(k + 1, interval) else node == end
      invariant hashes == IntervalHashes(end, interval)[k..]
    {
      hide Times;
      TimesFits(k + 1, interval, Height(end));
      if k + 1 < n { TimesMonotone(k + 1, k + 2, interval); }
      var height := Times(k + 1, interval);
      AtAt(end, Height(node), height);
      AtHeight(end, height);
      assert HashAt(end, interval, k + 1) == IntervalHashes(end, interval)[k];
      node := view.AncestorInView(node, height);
      hashes := [node.block.hash] + hashes;
    }
    r := Some(hashes);
  }

  /** Blocks with the same hash at one checkpoint have the same hashes at all earlier ones. */
  lemma SharedCheckpoint(index: map<Hash, BlockNode>, root: BlockNode, a: BlockNode, b: BlockNode, interval: nat,
                         k: nat, j: nat)
    requires Tree(index, root) && Indexed(index, a) && Indexed(index, b) && interval > 0
    requires j <= k < |IntervalHashes(a, interval)| && k < |IntervalHashes(b, interval)|
    requires IntervalHashes(a, interval)[k] == IntervalHashes(b, interval)[k]
    ensures IntervalHashes(a, interval)[j] == IntervalHashes(b, interval)[j]
  {
    hide Times, Tree;
    var h, g := Times(k + 1, interval), Times(j + 1, interval);
    TimesFits(k + 1, interval, Height(a));
    TimesFits(k + 1, interval, Height(b));
    TimesMonotone(j + 1, k + 1, interval);
    HashesAt(a, interval, k);
    HashesAt(b, interval, k);
    HashesAt(a, interval, j);
    HashesAt(b, interval, j);
    hide IntervalHashes;
    AtAt(a, h, g);
    AtAt(b, h, g);
    AncestorIndexed(index, root, a, At(a, h));
    AncestorIndexed(index, root, b, At(b, h));
  }

  /** The hashes are the first checkpoints of some chain of the tree. */
  ghost predicate OnOneChain(index: map<Hash, BlockNode>, interval: nat, hashes: seq<Hash>)
    requires interval > 0
  {
    exists n :: Indexed(index, n) && hashes <= IntervalHashes(n, interval)
  }

  lemma ChainsShare(index: map<Hash, BlockNode>, root: BlockNode, interval: nat, a: seq<Hash>, b: seq<Hash>, k: nat,
                    j: nat)
    requires Tree(index, root) && interval > 0 && OnOneChain(index, interval, a) && OnOneChain(index, interval, b)
    requires j <= k < |a| && k < |b| && a[k] == b[k]
    ensures a[j] == b[j]
  {
    hide IntervalHashes, Tree, Indexed;
    var n :| Indexed(index, n) && a <= IntervalHashes(n, interval);
    var m :| Indexed(index, m) && b <= IntervalHashes(m, interval);
    SharedCheckpoint(index, root, n, m, interval, k, j);
  }

  /** Every checkpoint is a block of the index. */
  lemma CheckpointsAreIndexed(index: map<Hash, BlockNode>, root: BlockNode, interval: nat, hashes: seq<Hash>)
    requires Tree(index, root) && interval > 0 && OnOneChain(index, interval, hashes)
    ensures forall h :: h in hashes ==> h in index
  {
    hide Times, IntervalHashes, Tree, Indexed;
    var n :| Indexed(index, n) && hashes <= IntervalHashes(n, interval);
    forall h | h in hashes ensures h in index {
      var i :| 0 <= i < |hashes| && hashes[i] == h;
      CheckpointIsIndexed(index, root, interval, n, i);
    }
  }

  lemma CheckpointIsIndexed(index: map<Hash, BlockNode>, root: BlockNode, interval: nat, n: BlockNode, i: nat)
    requires Tree(index, root) && interval > 0 && Indexed(index, n) && i < |IntervalHashes(n, interval)|
    ensures IntervalHashes(n, interval)[i] in index
  {
    hide Times, Tree;
    HashesAt(n, interval, i);
    TimesFits(i + 1, interval, Height(n));
    AtHeight(n, Times(i + 1, interval));
    AncestorIndexed(index, root, n, At(n, Times(i + 1, interval)));
  }

  // ----- the cache

  datatype HeaderKV = HeaderKV(blockHash: Hash, filterHeader: Hash)

  const BLANK := HeaderKV(0, 0)

  type Lookup = Hash -> Option<Hash>

  /** How far the cache agrees with the request, found from the end. */
  function ForkIdx(cache: seq<HeaderKV>, hashes: seq<Hash>, k: nat): (f: nat)
    requires k <= |hashes| <= |cache|
    ensures f <= k
  {
    if k == 0 then 0 else if cache[k - 1].blockHash == hashes[k - 1] then k else ForkIdx(cache, hashes, k - 1)
  }

  /** How many lookups succeed before the first that does not. */
  function FoundFrom(lookup: Lookup, hashes: seq<Hash>): (w: nat)
    ensures w <= |hashes|
  {
    if hashes == [] || lookup(hashes[0]).None? then 0 else 1 + FoundFrom(lookup, hashes[1..])
  }

  /** The entries of the lookups that succeed before the first that does not. */
  function EntriesFrom(lookup: Lookup, hashes: seq<Hash>): (kvs: seq<HeaderKV>)
    ensures |kvs| == FoundFrom(lookup, hashes)
  {
    if hashes == [] || lookup(hashes[0]).None? then []
    else [HeaderKV(hashes[0], lookup(hashes[0]).value)] + EntriesFrom(lookup, hashes[1..])
  }

  function Headers(kvs: seq<HeaderKV>): (headers: seq<Hash>)
    ensures |headers| == |kvs|
  {
    if kvs == [] then [] else Headers(kvs[..|kvs| - 1]) + [kvs[|kvs| - 1].filterHeader]
  }

  function Blanks(k: nat): (kvs: seq<HeaderKV>)
    ensures |kvs| == k
  {
    if k == 0 then [] else Blanks(k - 1) + [BLANK]
  }

  function Grown(cache: seq<HeaderKV>, k: nat): seq<HeaderKV> {
    if k > |cache| then cache + Blanks(k - |cache|) else cache
  }

  /** How much of the cache agrees with the request. */
  function Agreed(cache: seq<HeaderKV>, hashes: seq<Hash>): (f: nat)
    ensures f <= |hashes|
  {
    ForkIdx(Grown(cache, |hashes|), hashes, |hashes|)
  }

  /** The entries the request is answered from: agreed ones of the cache, then looked up ones. */
  function Answer(cache: seq<HeaderKV>, hashes: seq<Hash>, lookup: Lookup): seq<HeaderKV> {
    var f := Agreed(cache, hashes);
    Grown(cache, |hashes|)[..f] + EntriesFrom(lookup, hashes[f..])
  }

  function Reply(cache: seq<HeaderKV>, hashes: seq<Hash>, lookup: Lookup): Option<seq<Hash>> {
    var answer := Answer(cache, hashes, lookup);
    if |answer| == |hashes| then Some(Headers(answer)) else None
  }

  /** The stored cache afterwards.  A longer request replaces it when complete.  An
      incomplete one leaves what it has written so far, if it grew the cache in place. */
  function CacheAfter(cache: seq<HeaderKV>, hashes: seq<Hash>, lookup: Lookup, inPlace: bool): seq<HeaderKV> {
    var answer := Answer(cache, hashes, lookup);
    if |hashes| <= |cache| then cache
    else if |answer| == |hashes| then answer
    else if !inPlace then cache
    else if |answer| <= |cache| then answer + cache[|answer|..]
    else answer[..|cache|]
  }

  // ----- the cache stays on one chain, and answers like no cache would

  function Hashes(kvs: seq<HeaderKV>): seq<Hash> { seq(|kvs|, i requires 0 <= i < |kvs| => kvs[i].blockHash) }

  /** Every entry holds the header of its block, and all blocks lie on one chain. */
  ghost predicate Coherent(cache: seq<HeaderKV>, headerOf: Hash -> Hash, index: map<Hash, BlockNode>, interval: nat)
    requires interval > 0
  {
    && OnOneChain(index, interval, Hashes(cache))
    && forall i :: 0 <= i < |cache| ==> cache[i].filterHeader == headerOf(cache[i].blockHash)
  }

  /** A lookup may find nothing, but what it finds is right. */
  ghost predicate Truthful(lookup: Lookup, headerOf: Hash -> Hash) {
    forall h :: lookup(h).Some? ==> lookup(h).value == headerOf(h)
  }

  /** The entries are those of the first blocks of a request, with their headers. */
  predicate Right(kvs: seq<HeaderKV>, hashes: seq<Hash>, headerOf: Hash -> Hash) {
    |kvs| <= |hashes| && forall i :: 0 <= i < |kvs| ==> kvs[i] == HeaderKV(hashes[i], headerOf(hashes[i]))
  }

  lemma RightSame(a: seq<HeaderKV>, b: seq<HeaderKV>, hashes: seq<Hash>, headerOf: Hash -> Hash)
    requires Right(a, hashes, headerOf) && Right(b, hashes, headerOf) && |a| == |b|
    ensures a == b
  {
  }

  lemma RightPrefix(a: seq<HeaderKV>, n: nat, hashes: seq<Hash>, headerOf: Hash -> Hash)
    requires Right(a, hashes, headerOf) && n <= |a|
    ensures Right(a[..n], hashes, headerOf)
  {
  }

  lemma {:induction false} ForkIdxAgrees(cache: seq<HeaderKV>, hashes: seq<Hash>, k: nat)
    requires k <= |hashes| <= |cache|
    ensures var f := ForkIdx(cache, hashes, k); f > 0 ==> cache[f - 1].blockHash == hashes[f - 1]
    ensures forall i :: ForkIdx(cache, hashes, k) <= i < k ==> cache[i].blockHash != hashes[i]
  {
    if k > 0 && cache[k - 1].blockHash != hashes[k - 1] { ForkIdxAgrees(cache, hashes, k - 1); }
  }

  lemma {:induction false} EntriesAt(lookup: Lookup, hashes: seq<Hash>, i: nat)
    requires i < FoundFrom(lookup, hashes)
    ensures lookup(hashes[i]).Some?
    ensures EntriesFrom(lookup, hashes)[i] == HeaderKV(hashes[i], lookup(hashes[i]).value)
  {
    if i > 0 { EntriesAt(lookup, hashes[1..], i - 1); }
  }

  lemma {:induction false} FoundStops(lookup: Lookup, hashes: seq<Hash>)
    requires FoundFrom(lookup, hashes) < |hashes|
    ensures lookup(hashes[FoundFrom(lookup, hashes)]).None?
  {
    if lookup(hashes[0]).Some? { FoundStops(lookup, hashes[1..]); }
  }

  lemma {:induction false} HeadersAt(kvs: seq<HeaderKV>, i: nat)
    requires i < |kvs|
    ensures Headers(kvs)[i] == kvs[i].filterHeader
  {
    if i < |kvs| - 1 { HeadersAt(kvs[..|kvs| - 1], i); }
  }

  lemma {:induction false} BlanksAt(k: nat, i: nat)
    requires i < k
    ensures Blanks(k)[i] == BLANK
  {
    if i < k - 1 { BlanksAt(k - 1, i); }
  }

  /** The agreed part of the cache is within what was stored, and ends where both part. */
  lemma AgreedEnds(cache: seq<HeaderKV>, hashes: seq<Hash>)
    requires 0 !in hashes
    ensures var f := Agreed(cache, hashes);
            && f <= |cache|
            && (f > 0 ==> cache[f - 1].blockHash == hashes[f - 1])
            && (f < |cache| && f < |hashes| ==> cache[f].blockHash != hashes[f])
  {
    var grown, f := Grown(cache, |hashes|), Agreed(cache, hashes);
    ForkIdxAgrees(grown, hashes, |hashes|);
    if f > |cache| {
      assert hashes[f - 1] in hashes;
      BlanksAt(|hashes| - |cache|, f - 1 - |cache|);
    }
  }

  /** It agrees throughout. */
  lemma AgreedPart(cache: seq<HeaderKV>, hashes: seq<Hash>, headerOf: Hash -> Hash, index: map<Hash, BlockNode>,
                   root: BlockNode, interval: nat)
    requires Tree(index, root) && interval > 0 && Coherent(cache, headerOf, index, interval)
    requires OnOneChain(index, interval, hashes) && 0 !in hashes
    ensures var f := Agreed(cache, hashes);
            f <= |cache| && Right(cache[..f], hashes, headerOf)
  {
    hide Agreed, OnOneChain, Tree;
    AgreedEnds(cache, hashes);
    var f := Agreed(cache, hashes);
    forall i | 0 <= i < f ensures cache[i] == HeaderKV(hashes[i], headerOf(hashes[i])) {
      ChainsShare(index, root, interval, Hashes(cache), hashes, f - 1, i);
    }
  }

  lemma AnswerAt(cache: seq<HeaderKV>, hashes: seq<Hash>, lookup: Lookup, i: nat)
    requires i < |Answer(cache, hashes, lookup)| && Agreed(cache, hashes) <= |cache|
    ensures var f := Agreed(cache, hashes);
            && |Answer(cache, hashes, lookup)| == f + FoundFrom(lookup, hashes[f..]) <= |hashes|
            && if i < f then Answer(cache, hashes, lookup)[i] == cache[i]
               else
                 && lookup(hashes[i]).Some?
                 && Answer(cache, hashes, lookup)[i] == HeaderKV(hashes[i], lookup(hashes[i]).value)
  {
    hide Agreed;
    var f := Agreed(cache, hashes);
    if i >= f { EntriesAt(lookup, hashes[f..], i - f); }
  }

  /** Every entry of an answer is the request's block with its own header. */
  lemma AnswerIsRight(cache: seq<HeaderKV>, hashes: seq<Hash>, lookup: Lookup, headerOf: Hash -> Hash,
                      index: map<Hash, BlockNode>, root: BlockNode, interval: nat)
    requires Tree(index, root) && interval > 0 && Coherent(cache, headerOf, index, interval)
             && Truthful(lookup, headerOf)
    requires OnOneChain(index, interval, hashes) && 0 !in hashes
    ensures Right(Answer(cache, hashes, lookup), hashes, headerOf)
  {
    hide Agreed, OnOneChain, Tree, Coherent, Indexed, FoundFrom, EntriesFrom, Answer;
    AgreedPart(cache, hashes, headerOf, index, root, interval);
    AnswerFits(cache, hashes, lookup);
    var answer, f := Answer(cache, hashes, lookup), Agreed(cache, hashes);
    forall i | 0 <= i < |answer| ensures answer[i] == HeaderKV(hashes[i], headerOf(hashes[i])) {
      AnswerAt(cache, hashes, lookup, i);
      if i < f { assert answer[i] == cache[..f][i]; }
    }
  }

  /** What a peer is sent is what a server without any cache would send: the header of every
      checkpoint of the requested chain. */
  lemma ServedIsUncached(cache: seq<HeaderKV>, hashes: seq<Hash>, lookup: Lookup, headerOf: Hash -> Hash,
                         index: map<Hash, BlockNode>, root: BlockNode, interval: nat)
    requires Tree(index, root) && interval > 0 && Coherent(cache, headerOf, index, interval)
             && Truthful(lookup, headerOf)
    requires OnOneChain(index, interval, hashes) && 0 !in hashes
    ensures var reply := Reply(cache, hashes, lookup);
            reply.Some? ==>
              |reply.value| == |hashes| && forall i :: 0 <= i < |hashes| ==> reply.value[i] == headerOf(hashes[i])
    ensures (forall h :: h in hashes ==> lookup(h).Some?) ==> Reply(cache, hashes, lookup).Some?
  {
    AnswerIsRight(cache, hashes, lookup, headerOf, index, root, interval);
    var answer := Answer(cache, hashes, lookup);
    if |answer| == |hashes| {
      forall i | 0 <= i < |hashes| ensures Headers(answer)[i] == headerOf(hashes[i]) {
        HeadersAt(answer, i);
      }
    } else {
      var f := Agreed(cache, hashes);
      FoundStops(lookup, hashes[f..]);
      assert hashes[f..][FoundFrom(lookup, hashes[f..])] in hashes;
    }
  }

  /** An unfinished request that grew the cache in place has overwritten part, but not all,
      of what was stored beyond the fork. */
  predicate LeftHalfWritten(cache: seq<HeaderKV>, hashes: seq<Hash>, lookup: Lookup, inPlace: bool) {
    var f := Agreed(cache, hashes);
    var w := FoundFrom(lookup, hashes[f..]);
    inPlace && |hashes| > |cache| && 0 < w && f + w < |cache|
  }

  lemma HalfWrittenLength(cache: seq<HeaderKV>, hashes: seq<Hash>, lookup: Lookup, inPlace: bool)
    ensures LeftHalfWritten(cache, hashes, lookup, inPlace) <==>
            inPlace && |hashes| > |cache| && Agreed(cache, hashes) < |Answer(cache, hashes, lookup)| < |cache|
    ensures Agreed(cache, hashes) <= |Answer(cache, hashes, lookup)|
  {
    hide Agreed, FoundFrom, EntriesFrom;
  }

  /** The cache is sound afterwards exactly when it was not left half written. */
  lemma CacheStaysSoundIff(cache: seq<HeaderKV>, hashes: seq<Hash>, lookup: Lookup, inPlace: bool,
                           headerOf: Hash -> Hash, index: map<Hash, BlockNode>, root: BlockNode, interval: nat)
    requires Tree(index, root) && interval > 0 && Coherent(cache, headerOf, index, interval)
             && Truthful(lookup, headerOf)
    requires OnOneChain(index, interval, hashes) && 0 !in hashes
    ensures Coherent(CacheAfter(cache, hashes, lookup, inPlace), headerOf, index, interval)
       <==> !LeftHalfWritten(cache, hashes, lookup, inPlace)
  {
    AnswerIsRight(cache, hashes, lookup, headerOf, index, root, interval);
    if LeftHalfWritten(cache, hashes, lookup, inPlace) {
      HalfWrittenIsMixed(cache, hashes, lookup, headerOf, index, root, interval);
    } else {
      OtherwiseSound(cache, hashes, lookup, inPlace, headerOf, index, root, interval);
    }
  }

  /** Once a request longer than the cache has been answered, it is answered again the same way
      without looking anything up. */
  lemma AnsweredAgain(cache: seq<HeaderKV>, hashes: seq<Hash>, lookup: Lookup, inPlace: bool, later: Lookup)
    requires Reply(cache, hashes, lookup).Some? && |hashes| > |cache| && 0 !in hashes
    ensures Reply(CacheAfter(cache, hashes, lookup, inPlace), hashes, later) == Reply(cache, hashes, lookup)
  {
    var kept := Answer(cache, hashes, lookup);
    AgreedEnds(cache, hashes);
    AnswerAt(cache, hashes, lookup, |hashes| - 1);
    assert kept[|hashes| - 1].blockHash == hashes[|hashes| - 1];
    assert Agreed(kept, hashes) == |hashes|;
    assert hashes[|hashes|..] == [] && kept[..|hashes|] == kept;
    assert Answer(kept, hashes, later) == kept;
  }

  lemma PrefixOnChain(index: map<Hash, BlockNode>, interval: nat, a: seq<Hash>, b: seq<Hash>)
    requires interval > 0 && OnOneChain(index, interval, b) && a <= b
    ensures OnOneChain(index, interval, a)
  {
    var n :| Indexed(index, n) && b <= IntervalHashes(n, interval);
    assert a <= IntervalHashes(n, interval);
  }

  lemma RightEntriesAreSound(kvs: seq<HeaderKV>, hashes: seq<Hash>, headerOf: Hash -> Hash, index: map<Hash, BlockNode>,
                             interval: nat)
    requires interval > 0 && OnOneChain(index, interval, hashes) && Right(kvs, hashes, headerOf)
    ensures Coherent(kvs, headerOf, index, interval)
  {
    assert Hashes(kvs) <= hashes;
    PrefixOnChain(index, interval, Hashes(kvs), hashes);
  }

  lemma OtherwiseSound(cache: seq<HeaderKV>, hashes: seq<Hash>, lookup: Lookup, inPlace: bool,
                       headerOf: Hash -> Hash, index: map<Hash, BlockNode>, root: BlockNode, interval: nat)
    requires Tree(index, root) && interval > 0 && Coherent(cache, headerOf, index, interval)
             && Truthful(lookup, headerOf)
    requires OnOneChain(index, interval, hashes) && 0 !in hashes
    requires !LeftHalfWritten(cache, hashes, lookup, inPlace)
    ensures Coherent(CacheAfter(cache, hashes, lookup, inPlace), headerOf, index, interval)
  {
    hide Agreed, OnOneChain, Tree, Coherent, Answer, Right, Truthful, LeftHalfWritten, Indexed;
    AnswerIsRight(cache, hashes, lookup, headerOf, index, root, interval);
    AgreedPart(cache, hashes, headerOf, index, root, interval);
    HalfWrittenLength(cache, hashes, lookup, inPlace);
    var answer, f := Answer(cache, hashes, lookup), Agreed(cache, hashes);
    assert |answer| <= |hashes| by { AnswerFits(cache, hashes, lookup); }
    if |hashes| <= |cache| || (|answer| < |hashes| && !inPlace) {
    } else if |answer| == |hashes| {
      RightEntriesAreSound(answer, hashes, headerOf, index, interval);
    } else if |answer| >= |cache| {
      assert |answer| == |cache| ==> answer + cache[|answer|..] == answer[..|cache|];
      RightPrefix(answer, |cache|, hashes, headerOf);
      RightEntriesAreSound(answer[..|cache|], hashes, headerOf, index, interval);
    } else {
      RightSame(answer, cache[..f], hashes, headerOf);
      Rejoin(cache, f);
    }
  }

  lemma Rejoin(cache: seq<HeaderKV>, f: nat)
    requires f <= |cache|
    ensures cache[..f] + cache[f..] == cache
  {
  }

  /** A half-written cache holds blocks of two chains. */
  lemma HalfWrittenIsMixed(cache: seq<HeaderKV>, hashes: seq<Hash>, lookup: Lookup, headerOf: Hash -> Hash,
                           index: map<Hash, BlockNode>, root: BlockNode, interval: nat)
    requires Tree(index, root) && interval > 0 && Coherent(cache, headerOf, index, interval)
             && Truthful(lookup, headerOf)
    requires OnOneChain(index, interval, hashes) && 0 !in hashes && LeftHalfWritten(cache, hashes, lookup, true)
    ensures !Coherent(CacheAfter(cache, hashes, lookup, true), headerOf, index, interval)
  {
    hide OnOneChain, Tree, Truthful, LeftHalfWritten, CacheAfter, Right, Agreed, Indexed;
    AnswerIsRight(cache, hashes, lookup, headerOf, index, root, interval);
    HalfWrittenEntries(cache, hashes, lookup, true, headerOf);
    var after := CacheAfter(cache, hashes, lookup, true);
    if OnOneChain(index, interval, Hashes(after)) {
      ChainsShare(index, root, interval, Hashes(after), Hashes(cache), |cache| - 1, Agreed(cache, hashes));
    }
  }

  /** What a half-written cache holds at the fork and at its end. */
  lemma HalfWrittenEntries(cache: seq<HeaderKV>, hashes: seq<Hash>, lookup: Lookup, inPlace: bool,
                           headerOf: Hash -> Hash)
    requires Right(Answer(cache, hashes, lookup), hashes, headerOf) && 0 !in hashes
    requires LeftHalfWritten(cache, hashes, lookup, inPlace)
    ensures var f, after := Agreed(cache, hashes), CacheAfter(cache, hashes, lookup, inPlace);
            && f < |cache| == |after| && f < |hashes| && after[f] == HeaderKV(hashes[f], headerOf(hashes[f]))
            && cache[f].blockHash != hashes[f] && after[|cache| - 1] == cache[|cache| - 1]
  {
    hide Agreed, Answer, LeftHalfWritten;
    AgreedEnds(cache, hashes);
    HalfWrittenLength(cache, hashes, lookup, inPlace);
    var answer := Answer(cache, hashes, lookup);
    assert CacheAfter(cache, hashes, lookup, inPlace) == answer + cache[|answer|..];
  }

  lemma AnswerFits(cache: seq<HeaderKV>, hashes: seq<Hash>, lookup: Lookup)
    ensures |Answer(cache, hashes, lookup)| <= |hashes|
  {
  }

  lemma CoherentGrows(cache: seq<HeaderKV>, headerOf: Hash -> Hash, index: map<Hash, BlockNode>,
                      more: map<Hash, BlockNode>, interval: nat)
    requires interval > 0 && Coherent(cache, headerOf, index, interval)
    requires forall n :: Indexed(index, n) ==> Indexed(more, n)
    ensures Coherent(cache, headerOf, more, interval)
  {
  }

  // ----- the handler

  /** A slice: the first `length` entries of an array that may have room for more. */
  class CheckptCache {
    var data: array<HeaderKV>
    var length: nat

    ghost predicate Valid()
      reads this
    {
      length <= data.Length
    }

    ghost function Contents(): seq<HeaderKV>
      requires Valid()
      reads this, data
    {
      data[..length]
    }

    constructor ()
      ensures Valid() && fresh(data) && Contents() == [] && data.Length == 0
    {
      data := new HeaderKV[0];
      length := 0;
    }

    /** The array of the cache with blank entries appended up to k; the cache's own array
        when it has room. */
    method Append(k: nat, spare: nat) returns (slice: array<HeaderKV>)
      requires Valid() && k > length
      modifies data
      ensures k <= slice.Length && slice[..k] == Grown(old(Contents()), k)
      ensures if k <= data.Length then slice == data else fresh(slice) && slice.Length == k + spare
      ensures data[..length] == old(data[..length])
    {
      slice := data;
      if k > data.Length { slice := Copied(k + spare); }
      ghost var kept := slice[..length];
      for i := length to k
        invariant slice[..length] == kept && slice[length..i] == Blanks(i - length)
        modifies slice
      {
        slice[i] := BLANK;
        assert slice[length..i + 1] == slice[length..i] + [BLANK];
      }
      assert slice[..k] == slice[..length] + slice[length..k];
    }

    method Copied(capacity: nat) returns (copy: array<HeaderKV>)
      requires Valid() && capacity >= length
      ensures fresh(copy) && copy.Length == capacity && copy[..length] == data[..length]
    {
      copy := new HeaderKV[capacity](_ => BLANK);
      for i := 0 to length
        invariant copy[..i] == data[..i]
      {
        copy[i] := data[i];
      }
    }

    /** Walks back from the end to the last entry that agrees with the request. */
    static method FindFork(slice: array<HeaderKV>, n: nat, hashes: seq<Hash>) returns (f: nat)
      requires |hashes| <= n <= slice.Length
      ensures f == ForkIdx(slice[..n], hashes, |hashes|)
    {
      f := |hashes|;
      while f > 0 && slice[f - 1].blockHash != hashes[f - 1]
        invariant f <= |hashes| && ForkIdx(slice[..n], hashes, f) == ForkIdx(slice[..n], hashes, |hashes|)
      {
        f := f - 1;
      }
    }

    static method CachedHeaders(slice: array<HeaderKV>, f: nat) returns (headers: seq<Hash>)
      requires f <= slice.Length
      ensures headers == Headers(slice[..f])
    {
      headers := [];
      for i := 0 to f
        invariant headers == Headers(slice[..i])
      {
        assert slice[..i + 1][..i] == slice[..i];
        headers := headers + [slice[i].filterHeader];
      }
    }

    /** Looks up the headers from f on, writing them to the slice if asked to, until one is
        missing. */
    static method Collect(slice: array<HeaderKV>, f: nat, hashes: seq<Hash>, lookup: Lookup, update: bool)
      returns (headers: seq<Hash>)
      requires f <= |hashes| <= slice.Length
      modifies if update then {slice} else {}
      ensures headers == Headers(EntriesFrom(lookup, hashes[f..]))
      ensures update ==> slice[..] == Written(old(slice[..]), f, EntriesFrom(lookup, hashes[f..]))
    {
      hide EntriesFrom, Written, Headers;
      headers := [];
      ghost var kvs: seq<HeaderKV> := [];
      NothingCollected(lookup, hashes[f..], slice[..], f);
      var i := f;
      while i < |hashes| && lookup(hashes[i]).Some?
        invariant f <= i <= |hashes| && |kvs| == i - f && headers == Headers(kvs)
        invariant EntriesFrom(lookup, hashes[f..]) == kvs + EntriesFrom(lookup, hashes[i..])
        invariant update ==> slice[..] == Written(old(slice[..]), f, kvs)
      {
        var header := lookup(hashes[i]).value;
        EntriesNext(lookup, hashes, i, kvs);
        if update {
          WrittenNext(old(slice[..]), f, kvs, HeaderKV(hashes[i], header));
          slice[i] := HeaderKV(hashes[i], header);
        }
        headers := headers + [header];
        kvs := kvs + [HeaderKV(hashes[i], header)];
        i := i + 1;
      }
      EntriesEnd(lookup, hashes[i..]);
      assert kvs + [] == kvs;
    }

    /** Answers a getcfcheckpt request: the headers at the checkpoints of the stop block's chain. */
    method OnGetCFCheckpt(view: ChainView, index: map<Hash, BlockNode>, flags: Flags, stopHash: Hash, lookup: Lookup,
                          spare: nat)
      returns (reply: Option<seq<Hash>>)
      requires Valid() && view.Valid() && {this, data} !! {view, view.nodes}
      modifies this, data
      ensures Valid() && (data == old(data) || fresh(data))
      ensures !Requestable(index, flags, stopHash) ==> reply == None && Contents() == old(Contents())
      ensures Requestable(index, flags, stopHash) ==>
                var hashes := IntervalHashes(index[stopHash], CF_CHECKPT_INTERVAL);
                && reply == Reply(old(Contents()), hashes, lookup)
                && Contents() == CacheAfter(old(Contents()), hashes, lookup, |hashes| <= old(data.Length))
                && data.Length ==
                   if |hashes| <= old(data.Length) || reply.None? then old(data.Length) else |hashes| + spare
    {
      var hashes := IntervalBlockHashes(view, index, flags, stopHash, CF_CHECKPT_INTERVAL);
      if hashes.None? { return None; }
      reply := Serve(hashes.value, lookup, spare);
    }

    method Serve(hashes: seq<Hash>, lookup: Lookup, spare: nat) returns (reply: Option<seq<Hash>>)
      requires Valid()
      modifies this, data
      ensures Valid() && (data == old(data) || fresh(data))
      ensures Contents() == CacheAfter(old(Contents()), hashes, lookup, |hashes| <= old(data.Length))
      ensures reply == Reply(old(Contents()), hashes, lookup)
      ensures data.Length == if |hashes| <= old(data.Length) || reply.None? then old(data.Length) else |hashes| + spare
    {
      if |hashes| > length {
        reply := ServeAndGrow(hashes, lookup, spare);
      } else {
        reply := ServeStale(hashes, lookup);
      }
    }

    method ServeStale(hashes: seq<Hash>, lookup: Lookup) returns (reply: Option<seq<Hash>>)
      requires Valid() && |hashes| <= length
      ensures reply == Reply(Contents(), hashes, lookup)
    {
      var f := FindFork(data, length, hashes);
      var headers := CachedHeaders(data, f);
      var found := Collect(data, f, hashes, lookup, false);
      AnswerIs(Contents(), hashes, lookup, Contents());
      assert Contents()[..f] == data[..f];
      reply := if |headers + found| == |hashes| then Some(headers + found) else None;
    }

    method ServeAndGrow(hashes: seq<Hash>, lookup: Lookup, spare: nat) returns (reply: Option<seq<Hash>>)
      requires Valid() && |hashes| > length
      modifies this, data
      ensures Valid() && (data == old(data) || fresh(data))
      ensures Contents() == CacheAfter(old(Contents()), hashes, lookup, |hashes| <= old(data.Length))
      ensures reply == Reply(old(Contents()), hashes, lookup)
      ensures data.Length == if |hashes| <= old(data.Length) || reply.None? then old(data.Length) else |hashes| + spare
    {
      hide CacheAfter, Reply, Grown;
      ghost var cache, room := Contents(), |hashes| <= data.Length;
      var slice := Append(|hashes|, spare);
      reply := Fill(slice, hashes, lookup, cache);
      if reply.Some? { data, length := slice, |hashes|; }
    }

    /** Answers from a slice that has been grown to the request, filling it in on the way. */
    static method Fill(slice: array<HeaderKV>, hashes: seq<Hash>, lookup: Lookup, ghost cache: seq<HeaderKV>)
      returns (reply: Option<seq<Hash>>)
      requires |cache| < |hashes| <= slice.Length && slice[..|hashes|] == Grown(cache, |hashes|)
      modifies slice
      ensures reply == Reply(cache, hashes, lookup)
      ensures reply.Some? ==> forall inPlace :: slice[..|hashes|] == CacheAfter(cache, hashes, lookup, inPlace)
      ensures reply.None? ==> slice[..|cache|] == CacheAfter(cache, hashes, lookup, true)
      ensures reply.None? ==> cache == CacheAfter(cache, hashes, lookup, false)
    {
      var f := FindFork(slice, |hashes|, hashes);
      var headers := CachedHeaders(slice, f);
      ghost var before := slice[..];
      assert before[..|hashes|] == slice[..|hashes|] && before[..f] == slice[..f];
      assert f == Agreed(cache, hashes);
      AnswerIs(cache, hashes, lookup, before);
      AfterIs(cache, hashes, lookup, before);
      hide Answer, CacheAfter, Reply, Agreed, Written, EntriesFrom, Grown, ForkIdx, Headers;
      var found := Collect(slice, f, hashes, lookup, true);
      assert slice[..|hashes|] == slice[..][..|hashes|] && slice[..|cache|] == slice[..][..|cache|];
      reply := if |headers + found| == |hashes| then Some(headers + found) else None;
    }
  }

  /** The answer in terms of any slice that starts with the grown cache. */
  lemma AnswerIs(cache: seq<HeaderKV>, hashes: seq<Hash>, lookup: Lookup, slice: seq<HeaderKV>)
    requires |slice| >= |hashes| && Grown(cache, |hashes|)[..|hashes|] == slice[..|hashes|]
    ensures var f := Agreed(cache, hashes);
            var kvs := EntriesFrom(lookup, hashes[f..]);
            && Answer(cache, hashes, lookup) == slice[..f] + kvs
            && Reply(cache, hashes, lookup) ==
               if |Headers(slice[..f]) + Headers(kvs)| == |hashes|
               then Some(Headers(slice[..f]) + Headers(kvs)) else None
  {
    hide Agreed, EntriesFrom;
    var f := Agreed(cache, hashes);
    assert Grown(cache, |hashes|)[..f] == Grown(cache, |hashes|)[..|hashes|][..f] == slice[..|hashes|][..f] ==
        slice[..f];
    HeadersAppend(slice[..f], EntriesFrom(lookup, hashes[f..]));
  }

  /** What the slice holds after the lookups is what the stored cache becomes. */
  lemma AfterIs(cache: seq<HeaderKV>, hashes: seq<Hash>, lookup: Lookup, slice: seq<HeaderKV>)
    requires |slice| >= |hashes| > |cache| && slice[..|hashes|] == Grown(cache, |hashes|)
    ensures var f := Agreed(cache, hashes);
            var kvs := EntriesFrom(lookup, hashes[f..]);
            var after := Written(slice, f, kvs);
            if f + |kvs| == |hashes| then
              forall inPlace :: after[..|hashes|] == CacheAfter(cache, hashes, lookup, inPlace)
            else
              && after[..|cache|] == CacheAfter(cache, hashes, lookup, true)
              && cache == CacheAfter(cache, hashes, lookup, false)
  {
    AnswerIs(cache, hashes, lookup, slice);
    assert cache == slice[..|hashes|][..|cache|] == slice[..|cache|];
    hide Agreed, EntriesFrom, Headers, Answer, Grown, Reply;
    var f := Agreed(cache, hashes);
    WrittenPrefixes(slice, f, EntriesFrom(lookup, hashes[f..]), |cache|, |hashes|);
  }

  lemma WrittenPrefixes(slice: seq<HeaderKV>, f: nat, kvs: seq<HeaderKV>, c: nat, h: nat)
    requires c <= h <= |slice| && f + |kvs| <= h
    ensures var after, answer := Written(slice, f, kvs), slice[..f] + kvs;
            && (f + |kvs| == h ==> after[..h] == answer)
            && (f + |kvs| <= c ==> after[..c] == answer + slice[..c][f + |kvs|..])
            && (f + |kvs| > c ==> after[..c] == answer[..c])
  {
  }

  function Written(slice: seq<HeaderKV>, f: nat, kvs: seq<HeaderKV>): (r: seq<HeaderKV>)
    requires f + |kvs| <= |slice|
  {
    slice[..f] + kvs + slice[f + |kvs|..]
  }

  lemma WrittenNext(slice: seq<HeaderKV>, f: nat, kvs: seq<HeaderKV>, kv: HeaderKV)
    requires f + |kvs| < |slice|
    ensures Written(slice, f, kvs)[f + |kvs| := kv] == Written(slice, f, kvs + [kv])
  {
  }

  lemma NothingCollected(lookup: Lookup, hashes: seq<Hash>, slice: seq<HeaderKV>, f: nat)
    requires f <= |slice|
    ensures Headers([]) == [] && [] + EntriesFrom(lookup, hashes) == EntriesFrom(lookup, hashes)
    ensures Written(slice, f, []) == slice
  {
  }

  lemma EntriesNext(lookup: Lookup, hashes: seq<Hash>, i: nat, kvs: seq<HeaderKV>)
    requires i < |hashes| && lookup(hashes[i]).Some?
    ensures var kv := HeaderKV(hashes[i], lookup(hashes[i]).value);
            && kvs + EntriesFrom(lookup, hashes[i..]) == kvs + [kv] + EntriesFrom(lookup, hashes[i + 1..])
            && Headers(kvs + [kv]) == Headers(kvs) + [kv.filterHeader]
  {
    assert hashes[i..][1..] == hashes[i + 1..];
    var kv := HeaderKV(hashes[i], lookup(hashes[i]).value);
    assert (kvs + [kv])[..|kvs|] == kvs;
  }

  lemma EntriesEnd(lookup: Lookup, hashes: seq<Hash>)
    requires hashes == [] || lookup(hashes[0]).None?
    ensures EntriesFrom(lookup, hashes) == []
  {
  }

  lemma {:induction false} HeadersAppend(a: seq<HeaderKV>, b: seq<HeaderKV>)
    ensures Headers(a + b) == Headers(a) + Headers(b)
  {
    if b == [] {
      assert a + b == a;
    } else {
      HeadersAppend(a, b[..|b| - 1]);
      assert (a + b)[..|a + b| - 1] == a + b[..|b| - 1];
    }
  }
}
