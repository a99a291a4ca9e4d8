/** The checkpoint cache over whole runs: any requests, in any order, while the block index
    grows and chains are reorganized. */
module CFCheckpointRuns {
  import opened Options
  import opened Ledger
  import opened BlockTree
  import opened ChainRules
  import opened CFCheckpoints

  datatype Server = Server(index: map<Hash, BlockNode>, cache: seq<HeaderKV>)

  /** A request for the chain of a stop block, with what the header lookups will find and
      whether the stored array has room for it; or an index that has grown. */
  datatype Event =
    | Request(stop: BlockNode, lookup: Lookup, inPlace: bool)
    | Extend(index: map<Hash, BlockNode>)

  /** What is the same throughout a run. */
  datatype World = World(root: BlockNode, headerOf: Hash -> Hash, interval: nat) {
    ghost predicate Indexes(index: map<Hash, BlockNode>) { interval > 0 && Tree(index, root) && 0 !in index }

    ghost predicate Holds(s: Server) { Indexes(s.index) && Coherent(s.cache, headerOf, s.index, interval) }

    ghost predicate CanHappen(s: Server, e: Event) {
      match e
      case Request(stop, lookup, _) => Indexed(s.index, stop) && Truthful(lookup, headerOf)
      case Extend(more) => Indexes(more) && forall n :: Indexed(s.index, n) ==> Indexed(more, n)
    }

    function Next(s: Server, e: Event): Server
      requires interval > 0
    {
      match e
      case Request(stop, lookup, inPlace) =>
        s.(cache := CacheAfter(s.cache, IntervalHashes(stop, interval), lookup, inPlace))
      case Extend(more) => s.(index := more)
    }

    /** The request leaves part of one chain and part of another in the stored cache. */
    predicate Tears(s: Server, e: Event)
      requires interval > 0
    {
      e.Request? && LeftHalfWritten(s.cache, IntervalHashes(e.stop, interval), e.lookup, e.inPlace)
    }

    ghost predicate IsRun(s: Server, events: seq<Event>)
      requires interval > 0
      decreases events
    {
      events == [] || (CanHappen(s, events[0]) && IsRun(Next(s, events[0]), events[1..]))
    }

    /** The server before event i. */
    function StateAt(s: Server, events: seq<Event>, i: nat): Server
      requires interval > 0 && i <= |events|
      decreases i
    {
      if i == 0 then s else StateAt(Next(s, events[0]), events[1..], i - 1)
    }

    predicate NoneTears(s: Server, events: seq<Event>, i: nat)
      requires interval > 0 && i <= |events|
      decreases i
    {
      i == 0 || (!Tears(s, events[0]) && NoneTears(Next(s, events[0]), events[1..], i - 1))
    }
  }

  /** The reply a server without any cache gives. */
  function Uncached(hashes: seq<Hash>, headerOf: Hash -> Hash): (headers: seq<Hash>)
    ensures |headers| == |hashes| && forall i :: 0 <= i < |hashes| ==> headers[i] == headerOf(hashes[i])
  {
    seq(|hashes|, i requires 0 <= i < |hashes| => headerOf(hashes[i]))
  }

  lemma StopIsOnChain(w: World, s: Server, stop: BlockNode)
    requires w.Indexes(s.index) && Indexed(s.index, stop)
    ensures var hashes := IntervalHashes(stop, w.interval);
            OnOneChain(s.index, w.interval, hashes) && 0 !in hashes
  {
    var hashes := IntervalHashes(stop, w.interval);
    assert hashes <= IntervalHashes(stop, w.interval);
    CheckpointsAreIndexed(s.index, w.root, w.interval, hashes);
  }

  /** One step keeps the cache coherent unless it tears it. */
  lemma StepHolds(w: World, s: Server, e: Event)
    requires w.Holds(s) && w.CanHappen(s, e) && !w.Tears(s, e)
    ensures w.Holds(w.Next(s, e))
  {
    hide Coherent, Tree, Truthful, LeftHalfWritten, CacheAfter;
    match e
    case Request(stop, lookup, inPlace) =>
      StopIsOnChain(w, s, stop);
      var hashes := IntervalHashes(stop, w.interval);
      CacheStaysSoundIff(s.cache, hashes, lookup, inPlace, w.headerOf, s.index, w.root, w.interval);
    case Extend(more) =>
      CoherentGrows(s.cache, w.headerOf, s.index, more, w.interval);
  }

  lemma RequestIsServed(w: World, s: Server, e: Event)
    requires w.Holds(s) && w.CanHappen(s, e) && e.Request?
    ensures var hashes := IntervalHashes(e.stop, w.interval);
            var reply := Reply(s.cache, hashes, e.lookup);
            && (reply.Some? ==> reply.value == Uncached(hashes, w.headerOf))
            && ((forall h :: h in hashes ==> e.lookup(h).Some?) ==> reply.Some?)
  {
    hide Coherent, Tree, Truthful, Reply;
    StopIsOnChain(w, s, e.stop);
    var hashes := IntervalHashes(e.stop, w.interval);
    ServedIsUncached(s.cache, hashes, e.lookup, w.headerOf, s.index, w.root, w.interval);
  }

  /** Over every run of requests and reorganizations: as long as no request has torn the
      cache, each request is answered with exactly what would be sent without a cache, and it
      is answered whenever its lookups succeed. */
  lemma {:induction false} RunServesUncached(w: World, s: Server, events: seq<Event>, i: nat)
    requires w.Holds(s) && w.IsRun(s, events) && i < |events| && w.NoneTears(s, events, i) && events[i].Request?
    ensures var hashes := IntervalHashes(events[i].stop, w.interval);
            var reply := Reply(w.StateAt(s, events, i).cache, hashes, events[i].lookup);
            && (reply.Some? ==> reply.value == Uncached(hashes, w.headerOf))
            && ((forall h :: h in hashes ==> events[i].lookup(h).Some?) ==> reply.Some?)
    decreases i
  {
    if i == 0 {
      RequestIsServed(w, s, events[0]);
    } else {
      StepHolds(w, s, events[0]);
      RunServesUncached(w, w.Next(s, events[0]), events[1..], i - 1);
    }
  }

  // ----- when no lookup fails

  ghost predicate Finds(w: World, e: Event)
    requires w.interval > 0
  {
    e.Request? ==> forall h :: h in IntervalHashes(e.stop, w.interval) ==> e.lookup(h).Some?
  }

  lemma FindingNeverTears(w: World, s: Server, e: Event)
    requires w.interval > 0 && Finds(w, e)
    ensures !w.Tears(s, e)
  {
    if e.Request? {
      var hashes := IntervalHashes(e.stop, w.interval);
      var f := Agreed(s.cache, hashes);
      if FoundFrom(e.lookup, hashes[f..]) < |hashes[f..]| {
        FoundStops(e.lookup, hashes[f..]);
      }
    }
  }

  lemma {:induction false} FindingRunNeverTears(w: World, s: Server, events: seq<Event>, i: nat)
    requires w.interval > 0 && i <= |events| && forall e :: e in events ==> Finds(w, e)
    ensures w.NoneTears(s, events, i)
    decreases i
  {
    if i > 0 {
      assert events[0] in events;
      FindingNeverTears(w, s, events[0]);
      FindingRunNeverTears(w, w.Next(s, events[0]), events[1..], i - 1);
    }
  }

  /** Starting from the empty cache, if no lookup ever fails every reply of every run is the
      uncached one. */
  lemma FindingRunServesAll(w: World, index: map<Hash, BlockNode>, events: seq<Event>, i: nat)
    requires w.Indexes(index) && Indexed(index, w.root) && w.IsRun(Server(index, []), events)
    requires (forall e :: e in events ==> Finds(w, e)) && i < |events| && events[i].Request?
    ensures var hashes := IntervalHashes(events[i].stop, w.interval);
            Reply(w.StateAt(Server(index, []), events, i).cache, hashes, events[i].lookup)
            == Some(Uncached(hashes, w.headerOf))
  {
    EmptyIsCoherent(w, index);
    FindingRunNeverTears(w, Server(index, []), events, i);
    assert events[i] in events;
    RunServesUncached(w, Server(index, []), events, i);
  }

  lemma EmptyIsCoherent(w: World, index: map<Hash, BlockNode>)
    requires w.Indexes(index) && Indexed(index, w.root)
    ensures w.Holds(Server(index, []))
  {
    assert Hashes([]) <= IntervalHashes(w.root, w.interval);
  }

  // ----- what a torn cache serves

  /** After a torn request, whoever asks for the chain that was cached before is sent the
      other chain's header at the fork. */
  lemma TornServesWrong(w: World, s: Server, e: Event, later: Lookup)
    requires w.Holds(s) && w.CanHappen(s, e) && w.Tears(s, e)
    ensures var hashes, cached := IntervalHashes(e.stop, w.interval), Hashes(s.cache);
            var f, reply := Agreed(s.cache, hashes), Reply(w.Next(s, e).cache, cached, later);
            && f < |cached| && f < |hashes| && cached[f] != hashes[f]
            && reply.Some? && |reply.value| == |cached| && reply.value[f] == w.headerOf(hashes[f])
  {
    hide Agreed, Answer, Coherent, Truthful, Tree, LeftHalfWritten, IntervalHashes, Right, CacheAfter, Reply, Headers;
    StopIsOnChain(w, s, e.stop);
    var hashes := IntervalHashes(e.stop, w.interval);
    AnswerIsRight(s.cache, hashes, e.lookup, w.headerOf, s.index, w.root, w.interval);
    HalfWrittenEntries(s.cache, hashes, e.lookup, e.inPlace, w.headerOf);
    var after := CacheAfter(s.cache, hashes, e.lookup, e.inPlace);
    LastMatches(after, Hashes(s.cache), later);
    HeadersAt(after, Agreed(s.cache, hashes));
  }

  /** A cache is served whole to a request that agrees with its last entry. */
  lemma LastMatches(cache: seq<HeaderKV>, hashes: seq<Hash>, lookup: Lookup)
    requires |cache| == |hashes| > 0 && cache[|cache| - 1].blockHash == hashes[|cache| - 1]
    ensures Reply(cache, hashes, lookup) == Some(Headers(cache))
  {
    assert Agreed(cache, hashes) == |cache|;
    assert cache[..|cache|] == cache && hashes[|cache|..] == [];
    assert Answer(cache, hashes, lookup) == cache;
  }

  /** Every request for any chain of the index is answered, if at all, as without a cache. */
  ghost predicate ServesAll(w: World, s: Server)
    requires w.interval > 0
  {
    forall hashes, lookup ::
      && OnOneChain(s.index, w.interval, hashes) && Truthful(lookup, w.headerOf)
      && Reply(s.cache, hashes, lookup).Some? ==>
        Reply(s.cache, hashes, lookup).value == Uncached(hashes, w.headerOf)
  }

  /** Filter headers commit to their block, so different blocks have different ones. */
  ghost predicate Committing(headerOf: Hash -> Hash) { forall a, b :: headerOf(a) == headerOf(b) ==> a == b }

  /** A request leaves a cache that serves every later request right exactly when it does not
      tear it. */
  lemma ServesAllIff(w: World, s: Server, e: Event)
    requires w.Holds(s) && w.CanHappen(s, e) && Committing(w.headerOf)
    ensures ServesAll(w, w.Next(s, e)) <==> !w.Tears(s, e)
  {
    if w.Tears(s, e) {
      SomeoneIsServedWrong(w, s, e);
    } else {
      StepHolds(w, s, e);
      CoherentServesAll(w, w.Next(s, e));
    }
  }

  lemma CoherentServesAll(w: World, s: Server)
    requires w.Holds(s)
    ensures ServesAll(w, s)
  {
    hide Coherent, Tree, Truthful, Reply;
    forall hashes, lookup | OnOneChain(s.index, w.interval, hashes) && Truthful(lookup, w.headerOf)
                            && Reply(s.cache, hashes, lookup).Some?
      ensures Reply(s.cache, hashes, lookup).value == Uncached(hashes, w.headerOf)
    {
      CheckpointsAreIndexed(s.index, w.root, w.interval, hashes);
      ServedIsUncached(s.cache, hashes, lookup, w.headerOf, s.index, w.root, w.interval);
    }
  }

  lemma SomeoneIsServedWrong(w: World, s: Server, e: Event)
    requires w.Holds(s) && w.CanHappen(s, e) && Committing(w.headerOf) && w.Tears(s, e)
    ensures !ServesAll(w, w.Next(s, e))
  {
    var cached := Hashes(s.cache);
    assert OnOneChain(s.index, w.interval, cached);
    TornServesWrong(w, s, e, e.lookup);
    var reply := Reply(w.Next(s, e).cache, cached, e.lookup);
    var f := Agreed(s.cache, IntervalHashes(e.stop, w.interval));
    assert reply.value[f] != Uncached(cached, w.headerOf)[f];
  }
}
