/** The address manager's book-keeping: addresses heard of, filed in up to eight of the new
    buckets each, and addresses that worked, each in one slot of a tried bucket. */
module AddrBooks {
  type Key = string

  const NEW_BUCKETS := 1024
  const NEW_BUCKET_SIZE := 64
  const TRIED_BUCKETS := 64
  const TRIED_BUCKET_SIZE := 256
  const BUCKETS_PER_ADDRESS := 8

  datatype Known = Known(refs: int, tried: bool, timestamp: int, services: set<nat>, attempts: nat,
                         lastAttempt: int, lastSuccess: int)

  datatype Book = Book(index: map<Key, Known>, newBuckets: seq<set<Key>>, tried: seq<seq<Key>>, nNew: int, nTried: int)

  // ----- counting

  /** The number of new buckets that hold a key. */
  function Holding(buckets: seq<set<Key>>, k: Key): nat {
    if buckets == [] then 0 else
      Holding(buckets[..|buckets| - 1], k) + if k in buckets[|buckets| - 1] then 1 else 0
  }

  /** The number of tried slots that hold a key. */
  function Slots(buckets: seq<seq<Key>>, k: Key): nat {
    if buckets == [] then 0 else Slots(buckets[..|buckets| - 1], k) + multiset(buckets[|buckets| - 1])[k]
  }

  lemma {:induction false} HoldingUpdate(buckets: seq<set<Key>>, i: nat, s: set<Key>, k: Key)
    requires i < |buckets|
    ensures Holding(buckets[i := s], k) + (if k in buckets[i] then 1 else 0)
         == Holding(buckets, k) + (if k in s then 1 else 0)
  {
    var last := |buckets| - 1;
    if i == last {
      assert buckets[i := s][..last] == buckets[..last];
    } else {
      assert buckets[i := s][..last] == buckets[..last][i := s];
      HoldingUpdate(buckets[..last], i, s, k);
    }
  }

  lemma {:induction false} HoldingNone(buckets: seq<set<Key>>, k: Key)
    ensures Holding(buckets, k) == 0 <==> forall i :: 0 <= i < |buckets| ==> k !in buckets[i]
  {
    if buckets != [] {
      var last := |buckets| - 1;
      HoldingNone(buckets[..last], k);
      assert forall i :: 0 <= i < last ==> buckets[..last][i] == buckets[i];
    }
  }

  lemma {:induction false} SlotsUpdate(buckets: seq<seq<Key>>, i: nat, s: seq<Key>, k: Key)
    requires i < |buckets|
    ensures Slots(buckets[i := s], k) + multiset(buckets[i])[k] == Slots(buckets, k) + multiset(s)[k]
  {
    var last := |buckets| - 1;
    if i == last {
      assert buckets[i := s][..last] == buckets[..last];
    } else {
      assert buckets[i := s][..last] == buckets[..last][i := s];
      SlotsUpdate(buckets[..last], i, s, k);
    }
  }

  lemma {:induction false} SlotsCover(buckets: seq<seq<Key>>, i: nat, k: Key)
    requires i < |buckets|
    ensures multiset(buckets[i])[k] <= Slots(buckets, k)
  {
    var last := |buckets| - 1;
    if i < last { SlotsCover(buckets[..last], i, k); }
  }

  // ----- the invariant

  function Untried(index: map<Key, Known>): set<Key> { set k | k in index && !index[k].tried }

  function Tried(index: map<Key, Known>): set<Key> { set k | k in index && index[k].tried }

  /** New buckets hold known addresses, one more than their nominal size at most. */
  predicate NewShaped(buckets: seq<set<Key>>, keys: set<Key>) {
    && |buckets| == NEW_BUCKETS
    && forall i :: 0 <= i < NEW_BUCKETS ==> buckets[i] <= keys && |buckets[i]| <= NEW_BUCKET_SIZE + 1
  }

  predicate TriedShaped(buckets: seq<seq<Key>>) {
    && |buckets| == TRIED_BUCKETS
    && forall j :: 0 <= j < TRIED_BUCKETS ==> |buckets[j]| <= TRIED_BUCKET_SIZE
  }

  predicate Shaped(b: Book) { NewShaped(b.newBuckets, b.index.Keys) && TriedShaped(b.tried) }

  /** An untried address is counted by its new buckets and is in no tried slot; a tried one is
      in one tried slot and no new bucket. */
  predicate FiledRight(b: Book, k: Key) {
    if k !in b.index then Slots(b.tried, k) == 0
    else
      && b.index[k].refs == Holding(b.newBuckets, k) <= BUCKETS_PER_ADDRESS
      && Slots(b.tried, k) == (if b.index[k].tried then 1 else 0)
      && (b.index[k].tried ==> b.index[k].refs == 0)
  }

  predicate Counted(b: Book) { b.nNew == |Untried(b.index)| && b.nTried == |Tried(b.index)| }

  /** Everything is in order, except that the keys in `pending` may not be filed yet. */
  ghost predicate InOrder(b: Book, pending: set<Key>) {
    && Shaped(b) && Counted(b)
    && (forall k :: FiledRight(b, k))
    && (forall k :: k in b.index && !b.index[k].tried && k !in pending ==> b.index[k].refs >= 1)
  }

  lemma {:induction false} NewBound(buckets: seq<set<Key>>, keys: set<Key>, size: nat)
    requires forall k :: k in keys ==> Holding(buckets, k) >= 1
    requires forall i :: 0 <= i < |buckets| ==> |buckets[i]| <= size
    ensures |keys| <= size * |buckets|
    decreases buckets
  {
    if buckets == [] {
      assert keys == {};
    } else {
      var last := |buckets| - 1;
      NewBound(buckets[..last], keys - buckets[last], size);
      assert keys <= (keys - buckets[last]) + buckets[last];
      Fewer(keys, (keys - buckets[last]) + buckets[last]);
      assert size * |buckets| == size * last + size;
    }
  }

  lemma {:induction false} TriedBound(buckets: seq<seq<Key>>, keys: set<Key>, size: nat)
    requires forall k :: k in keys ==> Slots(buckets, k) >= 1
    requires forall i :: 0 <= i < |buckets| ==> |buckets[i]| <= size
    ensures |keys| <= size * |buckets|
    decreases buckets
  {
    if buckets == [] {
      assert keys == {};
    } else {
      var last := |buckets| - 1;
      var here := set k | k in buckets[last];
      forall k | k in keys - here ensures Slots(buckets[..last], k) >= 1 { SlotElsewhere(buckets, k); }
      hide Slots;
      TriedBound(buckets[..last], keys - here, size);
      Elements(buckets[last], here);
      Fewer(keys, (keys - here) + here);
      assert size * |buckets| == size * last + size;
    }
  }

  lemma SlotElsewhere(buckets: seq<seq<Key>>, k: Key)
    requires buckets != [] && k !in buckets[|buckets| - 1]
    ensures Slots(buckets[..|buckets| - 1], k) == Slots(buckets, k)
  {
    assert multiset(buckets[|buckets| - 1])[k] == 0;
  }

  lemma {:induction false} Elements(s: seq<Key>, keys: set<Key>)
    requires forall k :: k in keys ==> k in s
    ensures |keys| <= |s|
    decreases s
  {
    if s == [] {
      assert keys == {};
    } else {
      Elements(s[1..], keys - {s[0]});
      Fewer(keys, (keys - {s[0]}) + {s[0]});
    }
  }

  lemma {:induction false} Fewer(a: set<Key>, b: set<Key>)
    requires a <= b
    ensures |a| <= |b|
  {
    if k :| k in a { Fewer(a - {k}, b - {k}); }
  }

  /** A book in order never holds more than 66560 addresses that are new and 16384 that were
      tried. */
  lemma BookIsBounded(b: Book)
    requires InOrder(b, {})
    ensures b.nNew <= 66560 && b.nTried <= 16384
    ensures forall k :: k in b.index ==> Holding(b.newBuckets, k) <= 8
  {
    forall k | k in Untried(b.index) ensures Holding(b.newBuckets, k) >= 1 { assert FiledRight(b, k); }
    forall k | k in Tried(b.index) ensures Slots(b.tried, k) >= 1 { assert FiledRight(b, k); }
    forall k | k in b.index ensures Holding(b.newBuckets, k) <= 8 { assert FiledRight(b, k); }
    NewBound(b.newBuckets, Untried(b.index), 65);
    TriedBound(b.tried, Tried(b.index), 256);
  }

  // ----- taking an address out of a new bucket

  /** One reference less; without any the address is forgotten. */
  function Drop(b: Book, bucket: nat, k: Key): Book
    requires bucket < |b.newBuckets| && k in b.index
  {
    var r := b.index[k];
    var left := b.newBuckets[bucket := b.newBuckets[bucket] - {k}];
    if r.refs == 1 then b.(index := b.index - {k}, newBuckets := left, nNew := b.nNew - 1)
    else b.(index := b.index[k := r.(refs := r.refs - 1)], newBuckets := left)
  }

  lemma DropKeeps(b: Book, bucket: nat, k: Key, pending: set<Key>)
    requires InOrder(b, pending) && bucket < NEW_BUCKETS && k in b.newBuckets[bucket] && k !in pending
    ensures InOrder(Drop(b, bucket, k), pending)
  {
    var c := Drop(b, bucket, k);
    forall x ensures FiledRight(c, x) {
      assert FiledRight(b, x);
      HoldingUpdate(b.newBuckets, bucket, b.newBuckets[bucket] - {k}, x);
    }
    DropShaped(b, bucket, k, pending);
    assert FiledRight(b, k);
    if b.index[k].refs == 1 {
      assert Untried(c.index) == Untried(b.index) - {k};
      assert Tried(c.index) == Tried(b.index);
    } else {
      assert Untried(c.index) == Untried(b.index);
      assert Tried(c.index) == Tried(b.index);
    }
  }

  lemma DropShaped(b: Book, bucket: nat, k: Key, pending: set<Key>)
    requires InOrder(b, pending) && bucket < NEW_BUCKETS && k in b.newBuckets[bucket]
    ensures Shaped(Drop(b, bucket, k)) && !b.index[k].tried
  {
    var left := b.newBuckets[bucket := b.newBuckets[bucket] - {k}];
    assert FiledRight(b, k);
    HoldingUpdate(b.newBuckets, bucket, b.newBuckets[bucket] - {k}, k);
    HoldingNone(left, k);
    SmallerSet(b.newBuckets[bucket], k);
  }

  lemma SmallerSet(s: set<Key>, k: Key)
    ensures |s - {k}| <= |s| && (k in s ==> |s - {k}| == |s| - 1)
  {
    if k in s { assert s == (s - {k}) + {k}; } else { assert s - {k} == s; }
  }

  lemma LargerSet(s: set<Key>, k: Key)
    ensures |s + {k}| <= |s| + 1
  {
    if k in s { assert s + {k} == s; }
  }

  function Forgotten(b: Book, gone: set<Key>): set<Key> {
    set k | k in gone && k in b.index && b.index[k].refs == 1
  }

  /** A set of addresses taken out of one bucket. */
  function DropAll(b: Book, bucket: nat, gone: set<Key>): Book
    requires bucket < |b.newBuckets|
  {
    var forgotten := Forgotten(b, gone);
    b.(index := map k | k in b.index && k !in forgotten ::
                  if k in gone then b.index[k].(refs := b.index[k].refs - 1) else b.index[k],
       newBuckets := b.newBuckets[bucket := b.newBuckets[bucket] - gone],
       nNew := b.nNew - |forgotten|)
  }

  lemma DropNext(b: Book, bucket: nat, gone: set<Key>, k: Key)
    requires bucket < |b.newBuckets| && k in b.index && k !in gone
    ensures k in DropAll(b, bucket, gone).index
    ensures Drop(DropAll(b, bucket, gone), bucket, k) == DropAll(b, bucket, gone + {k})
  {
    var before, next := Forgotten(b, gone), Forgotten(b, gone + {k});
    assert next == if b.index[k].refs == 1 then before + {k} else before;
    var left := b.newBuckets[bucket];
    assert left - gone - {k} == left - (gone + {k});
    assert b.newBuckets[bucket := left - gone][bucket := left - gone - {k}] ==
           b.newBuckets[bucket := left - (gone + {k})];
  }

  // ----- filing an address in a new bucket

  function AddRef(b: Book, bucket: nat, k: Key): Book
    requires bucket < |b.newBuckets| && k in b.index
  {
    b.(index := b.index[k := b.index[k].(refs := b.index[k].refs + 1)],
       newBuckets := b.newBuckets[bucket := b.newBuckets[bucket] + {k}])
  }

  lemma AddRefKeeps(b: Book, bucket: nat, k: Key, pending: set<Key>)
    requires InOrder(b, pending) && bucket < NEW_BUCKETS && k in b.index && !b.index[k].tried
    requires k !in b.newBuckets[bucket] && |b.newBuckets[bucket]| <= NEW_BUCKET_SIZE
             && b.index[k].refs < BUCKETS_PER_ADDRESS
    ensures InOrder(AddRef(b, bucket, k), pending - {k})
  {
    var c := AddRef(b, bucket, k);
    forall x ensures FiledRight(c, x) {
      assert FiledRight(b, x);
      HoldingUpdate(b.newBuckets, bucket, b.newBuckets[bucket] + {k}, x);
    }
    assert FiledRight(b, k);
    assert Untried(c.index) == Untried(b.index);
    assert Tried(c.index) == Tried(b.index);
  }

  /** A new address, not yet filed anywhere. */
  function Insert(b: Book, k: Key, r: Known): Book { b.(index := b.index[k := r], nNew := b.nNew + 1) }

  lemma InsertKeeps(b: Book, k: Key, r: Known)
    requires InOrder(b, {}) && k !in b.index && r.refs == 0 && !r.tried
    ensures InOrder(Insert(b, k, r), {k})
  {
    var c := Insert(b, k, r);
    HoldingNone(b.newBuckets, k);
    forall x ensures FiledRight(c, x) { assert FiledRight(b, x); }
    assert Untried(c.index) == Untried(b.index) + {k};
    assert Tried(c.index) == Tried(b.index);
  }

  /** Changing anything but the references and the tried flag. */
  lemma TouchKeeps(b: Book, k: Key, r: Known)
    requires InOrder(b, {}) && k in b.index && r.refs == b.index[k].refs && r.tried == b.index[k].tried
    ensures InOrder(b.(index := b.index[k := r]), {})
  {
    var c := b.(index := b.index[k := r]);
    forall x ensures FiledRight(c, x) { assert FiledRight(b, x); }
    assert Untried(c.index) == Untried(b.index);
    assert Tried(c.index) == Tried(b.index);
  }

  // ----- moving an address to the tried buckets

  function Unfiled(buckets: seq<set<Key>>, k: Key): (left: seq<set<Key>>)
    ensures |left| == |buckets|
    ensures forall i :: 0 <= i < |left| ==> left[i] == buckets[i] - {k}
  {
    if buckets == [] then [] else Unfiled(buckets[..|buckets| - 1], k) + [buckets[|buckets| - 1] - {k}]
  }

  lemma {:induction false} UnfiledHolding(buckets: seq<set<Key>>, k: Key, x: Key)
    ensures Holding(Unfiled(buckets, k), x) == if x == k then 0 else Holding(buckets, x)
  {
    if buckets != [] {
      var last := |buckets| - 1;
      assert Unfiled(buckets, k)[..last] == Unfiled(buckets[..last], k);
      UnfiledHolding(buckets[..last], k, x);
    }
  }

  /** Off all new buckets and into a free tried slot. */
  function Promote(b: Book, k: Key, bucket: nat): Book
    requires k in b.index && bucket < |b.tried|
  {
    b.(index := b.index[k := b.index[k].(refs := 0, tried := true)],
       newBuckets := Unfiled(b.newBuckets, k),
       tried := b.tried[bucket := b.tried[bucket] + [k]],
       nNew := b.nNew - 1,
       nTried := b.nTried + 1)
  }

  lemma PromoteKeeps(b: Book, k: Key, bucket: nat)
    requires InOrder(b, {}) && k in b.index && !b.index[k].tried
    requires bucket < TRIED_BUCKETS && |b.tried[bucket]| < TRIED_BUCKET_SIZE
    ensures InOrder(Promote(b, k, bucket), {})
  {
    forall x ensures FiledRight(Promote(b, k, bucket), x) { PromoteFiled(b, k, bucket, x); }
    UnfiledShaped(b.newBuckets, b.index.Keys, k);
    PromoteCounted(b, k, bucket);
    hide FiledRight, Counted, Unfiled, NewShaped;
    assert Promote(b, k, bucket).index.Keys == b.index.Keys;
  }

  lemma PromoteFiled(b: Book, k: Key, bucket: nat, x: Key)
    requires FiledRight(b, x) && k in b.index && !b.index[k].tried && bucket < |b.tried| && FiledRight(b, k)
    ensures FiledRight(Promote(b, k, bucket), x)
  {
    UnfiledHolding(b.newBuckets, k, x);
    SlotsUpdate(b.tried, bucket, b.tried[bucket] + [k], x);
  }

  lemma PromoteCounted(b: Book, k: Key, bucket: nat)
    requires Counted(b) && k in b.index && !b.index[k].tried && bucket < |b.tried|
    ensures Counted(Promote(b, k, bucket))
  {
    var c := Promote(b, k, bucket);
    assert Untried(c.index) == Untried(b.index) - {k};
    assert Tried(c.index) == Tried(b.index) + {k};
  }

  lemma UnfiledShaped(buckets: seq<set<Key>>, keys: set<Key>, k: Key)
    requires NewShaped(buckets, keys)
    ensures NewShaped(Unfiled(buckets, k), keys)
  {
    var left := Unfiled(buckets, k);
    forall i | 0 <= i < NEW_BUCKETS ensures left[i] <= keys && |left[i]| <= NEW_BUCKET_SIZE + 1 {
      SmallerSet(buckets[i], k);
    }
  }

  /** k takes over slot j of a full tried bucket; whoever was there goes back to a new bucket. */
  function Swap(b: Book, k: Key, bucket: nat, j: nat, home: nat): Book
    requires k in b.index && bucket < |b.tried| && j < |b.tried[bucket]| && b.tried[bucket][j] in b.index
    requires home < |b.newBuckets|
  {
    var out := b.tried[bucket][j];
    var left := Unfiled(b.newBuckets, k);
    b.(index := b.index[k := b.index[k].(refs := 0, tried := true)]
                       [out := b.index[out].(refs := b.index[out].refs + 1, tried := false)],
       newBuckets := left[home := left[home] + {out}],
       tried := b.tried[bucket := b.tried[bucket][j := k]])
  }

  lemma SwapKeeps(b: Book, k: Key, bucket: nat, j: nat, home: nat)
    requires InOrder(b, {}) && k in b.index && !b.index[k].tried
    requires bucket < TRIED_BUCKETS && j < |b.tried[bucket]| && home < NEW_BUCKETS
    requires |Unfiled(b.newBuckets, k)[home]| <= NEW_BUCKET_SIZE
    ensures b.tried[bucket][j] in b.index && InOrder(Swap(b, k, bucket, j, home), {})
  {
    TriedIsKnown(b, bucket, j, {});
    var out := b.tried[bucket][j];
    forall x ensures FiledRight(Swap(b, k, bucket, j, home), x) { SwapFiled(b, k, bucket, j, home, x); }
    SwapShaped(b, k, bucket, j, home);
    SwapCounted(b, k, bucket, j, home);
    assert FiledRight(b, out);
    hide Shaped, Counted, FiledRight, Unfiled;
  }

  lemma SwapShaped(b: Book, k: Key, bucket: nat, j: nat, home: nat)
    requires Shaped(b) && k in b.index
    requires bucket < TRIED_BUCKETS && j < |b.tried[bucket]| && home < NEW_BUCKETS
    requires |Unfiled(b.newBuckets, k)[home]| <= NEW_BUCKET_SIZE && b.tried[bucket][j] in b.index
    ensures Shaped(Swap(b, k, bucket, j, home))
  {
    UnfiledShaped(b.newBuckets, b.index.Keys, k);
    SwapParts(b, k, bucket, j, home);
    hide Unfiled, NewShaped, Swap;
    OneMore(Unfiled(b.newBuckets, k), b.index.Keys, home, b.tried[bucket][j]);
  }

  lemma SwapParts(b: Book, k: Key, bucket: nat, j: nat, home: nat)
    requires k in b.index && bucket < |b.tried| && j < |b.tried[bucket]| && b.tried[bucket][j] in b.index
    requires home < |b.newBuckets|
    ensures var c, left := Swap(b, k, bucket, j, home), Unfiled(b.newBuckets, k);
            && c.index.Keys == b.index.Keys && c.newBuckets == left[home := left[home] + {b.tried[bucket][j]}]
            && c.tried == b.tried[bucket := b.tried[bucket][j := k]]
  {
    hide Unfiled;
  }

  lemma OneMore(buckets: seq<set<Key>>, keys: set<Key>, i: nat, k: Key)
    requires NewShaped(buckets, keys) && i < NEW_BUCKETS && |buckets[i]| <= NEW_BUCKET_SIZE && k in keys
    ensures NewShaped(buckets[i := buckets[i] + {k}], keys)
  {
    LargerSet(buckets[i], k);
  }

  lemma SwapCounted(b: Book, k: Key, bucket: nat, j: nat, home: nat)
    requires Counted(b) && k in b.index && !b.index[k].tried
    requires bucket < |b.tried| && j < |b.tried[bucket]| && home < |b.newBuckets|
    requires b.tried[bucket][j] in b.index && b.index[b.tried[bucket][j]].tried
    ensures Counted(Swap(b, k, bucket, j, home))
  {
    var c, out := Swap(b, k, bucket, j, home), b.tried[bucket][j];
    assert Untried(c.index) == Untried(b.index) - {k} + {out};
    assert Tried(c.index) == Tried(b.index) - {out} + {k};
  }

  lemma TriedIsKnown(b: Book, bucket: nat, j: nat, pending: set<Key>)
    requires InOrder(b, pending) && bucket < TRIED_BUCKETS && j < |b.tried[bucket]|
    ensures b.tried[bucket][j] in b.index && b.index[b.tried[bucket][j]].tried
  {
    var out := b.tried[bucket][j];
    assert FiledRight(b, out);
    SlotsCover(b.tried, bucket, out);
    assert out in multiset(b.tried[bucket]);
  }

  lemma SwapFiled(b: Book, k: Key, bucket: nat, j: nat, home: nat, x: Key)
    requires InOrder(b, {}) && k in b.index && !b.index[k].tried
    requires bucket < TRIED_BUCKETS && j < |b.tried[bucket]| && home < NEW_BUCKETS
    requires b.tried[bucket][j] in b.index && b.index[b.tried[bucket][j]].tried
    ensures FiledRight(Swap(b, k, bucket, j, home), x)
  {
    var out, left := b.tried[bucket][j], Unfiled(b.newBuckets, k);
    assert FiledRight(b, x) && FiledRight(b, out);
    UnfiledHolding(b.newBuckets, k, x);
    UnfiledHolding(b.newBuckets, k, out);
    HoldingNone(left, out);
    HoldingUpdate(left, home, left[home] + {out}, x);
    SlotsUpdate(b.tried, bucket, b.tried[bucket][j := k], x);
    assert multiset(b.tried[bucket][j := k]) == multiset(b.tried[bucket]) - multiset{out} + multiset{k};
  }
}

/** The manager itself: hearing of addresses, expiring them and marking them good. */
module AddrManagers {
  import opened Options
  import opened AddrBooks

  const MINUTE := 60
  const DAY := 86400
  const MISSING_DAYS := 14
  const RETRIES := 5
  const MAX_FAILURES := 15
  const MIN_BAD_DAYS := 7

  /** The zero time, long before any clock reading. */
  const NEVER := -62135596800

  predicate IsBad(r: Known, now: int) {
    && r.lastAttempt <= now - MINUTE
    && (|| r.timestamp > now + 10 * MINUTE
        || r.timestamp < now - MISSING_DAYS * DAY
        || (r.lastSuccess == NEVER && r.attempts >= RETRIES)
        || (r.lastSuccess <= now - MIN_BAD_DAYS * DAY && r.attempts >= MAX_FAILURES))
  }

  predicate IsOldestGood(index: map<Key, Known>, bucket: set<Key>, oldest: Key, now: int)
    requires bucket <= index.Keys
  {
    && oldest in bucket && !IsBad(index[oldest], now)
    && forall k :: k in bucket && !IsBad(index[k], now) ==> index[oldest].timestamp <= index[k].timestamp
  }

  function BadOnes(index: map<Key, Known>, bucket: set<Key>, now: int): set<Key>
    requires bucket <= index.Keys
  {
    set k | k in bucket && IsBad(index[k], now)
  }

  /** All bad addresses of the bucket go, and one of the oldest of the others, if any. */
  predicate Expired(index: map<Key, Known>, bucket: set<Key>, gone: set<Key>, now: int)
    requires bucket <= index.Keys
  {
    var bad := BadOnes(index, bucket, now);
    if bad == bucket then gone == bucket
    else exists oldest :: oldest in bucket && IsOldestGood(index, bucket, oldest, now) && gone == bad + {oldest}
  }

  /** Nothing bad stays in an expired bucket, something always goes, and of what is not bad at
      most one address goes, which is no newer than any that stays. */
  lemma ExpiredLeaves(index: map<Key, Known>, bucket: set<Key>, gone: set<Key>, now: int, x: Key, y: Key)
    requires bucket <= index.Keys && Expired(index, bucket, gone, now)
    ensures gone <= bucket && (bucket != {} ==> gone != {})
    ensures x in bucket - gone ==> !IsBad(index[x], now)
    ensures x in gone && !IsBad(index[x], now) && y in bucket - gone ==> index[x].timestamp <= index[y].timestamp
    ensures x in gone && y in gone && !IsBad(index[x], now) && !IsBad(index[y], now) ==> x == y
  {
    hide IsBad;
  }

  /** The first of the oldest addresses in a tried bucket. */
  predicate IsOldestTried(index: map<Key, Known>, bucket: seq<Key>, j: nat)
    requires forall k :: k in bucket ==> k in index
  {
    && j < |bucket|
    && (forall i :: 0 <= i < |bucket| ==> index[bucket[j]].timestamp <= index[bucket[i]].timestamp)
    && (forall i :: 0 <= i < j ==> index[bucket[j]].timestamp < index[bucket[i]].timestamp)
  }

  /** An announcement updates time and services when it is newer or offers more. */
  function Seen(r: Known, timestamp: int, services: set<nat>): Known {
    if timestamp > r.timestamp || !(services <= r.services)
    then r.(timestamp := timestamp, services := r.services + services)
    else r
  }

  /** Services add up; the time moves when the announcement is newer or offers more. */
  lemma SeenIs(r: Known, timestamp: int, services: set<nat>)
    ensures var n := Seen(r, timestamp, services);
            && n.services == r.services + services
            && n.timestamp == (if timestamp > r.timestamp || n.services != r.services then timestamp else r.timestamp)
            && n == r.(timestamp := n.timestamp, services := n.services)
  {
  }

  function Noted(b: Book, k: Key, timestamp: int, services: set<nat>): Book {
    if k in b.index then b.(index := b.index[k := Seen(b.index[k], timestamp, services)])
    else Insert(b, k, Known(0, false, timestamp, services, 0, NEVER, NEVER))
  }

  /** A known address is not filed once more if it is tried, has enough references, loses the
      draw, or is in the bucket already. */
  predicate Skips(b: Book, k: Key, bucket: nat, draw: nat)
    requires bucket < |b.newBuckets|
  {
    k in b.index && (|| b.index[k].tried || b.index[k].refs == BUCKETS_PER_ADDRESS
                     || (b.index[k].refs > 0 && draw % (2 * b.index[k].refs) != 0)
                     || k in b.newBuckets[bucket])
  }

  /** An address that is not known is always filed.  A known one that is not tried, not in the
      bucket and has one to seven references is filed again by one draw in twice as many. */
  lemma SkipsWhen(b: Book, k: Key, bucket: nat, draw: nat, q: nat, r: nat)
    requires bucket < |b.newBuckets|
    ensures k !in b.index ==> !Skips(b, k, bucket, draw)
    ensures k in b.index && (b.index[k].tried || b.index[k].refs == 8 || k in b.newBuckets[bucket]) ==>
              Skips(b, k, bucket, draw)
    ensures k in b.index && !b.index[k].tried && k !in b.newBuckets[bucket] && 1 <= b.index[k].refs < 8 ==>
              var m := 2 * b.index[k].refs;
              r < m && draw == q * m + r ==> (Skips(b, k, bucket, draw) <==> r != 0)
  {
    if k in b.index && 1 <= b.index[k].refs < 8 && r < 2 * b.index[k].refs && draw == q * (2 * b.index[k].refs) + r {
      RestOf(draw, 2 * b.index[k].refs, q, r);
    }
  }

  lemma RestOf(n: int, m: int, q: int, r: int)
    requires 0 <= r < m && n == q * m + r
    ensures n % m == r
  {
    var d := n / m - q;
    assert n == n / m * m + n % m;
    assert d * m == r - n % m;
    assert d >= 1 ==> d * m >= m;
    assert d <= -1 ==> d * m <= -m;
  }

  /** An address heard of for the first time has the announced time and services, and nothing has
      been tried with it; whatever else is known stays as it is. */
  lemma FirstHeard(b: Book, k: Key, timestamp: int, services: set<nat>)
    requires k !in b.index
    ensures var c := Noted(b, k, timestamp, services);
            && c.index.Keys == b.index.Keys + {k} && (forall x :: x in b.index ==> c.index[x] == b.index[x])
            && c.index[k].timestamp == timestamp && c.index[k].services == services
            && c.index[k].attempts == 0 && !c.index[k].tried && c.index[k].lastSuccess == NEVER
            && c.nNew == b.nNew + 1 && c.nTried == b.nTried
  {
  }

  function FirstHolding(buckets: seq<set<Key>>, k: Key): (i: nat)
    ensures i <= |buckets|
    ensures i < |buckets| ==> k in buckets[i]
    ensures forall j :: 0 <= j < i ==> k !in buckets[j]
  {
    if buckets == [] || k in buckets[0] then 0 else
      1 + FirstHolding(buckets[1..], k)
  }

  function Succeeded(r: Known, now: int): Known { r.(lastSuccess := now, lastAttempt := now, attempts := 0) }

  /** An address tried in the last minute is never bad.  Otherwise it is bad if it was seen more
      than ten minutes ahead, or not for two weeks, or failed five times without ever having
      worked, or fifteen times in a week without. */
  lemma WhenBad(r: Known, now: int)
    ensures r.lastAttempt > now - 60 ==> !IsBad(r, now)
    ensures r.lastAttempt <= now - 60 ==>
              && (r.timestamp > now + 600 || r.timestamp < now - 1209600 ==> IsBad(r, now))
              && (now - 1209600 <= r.timestamp <= now + 600 ==>
                    && (r.attempts < 5 ==> !IsBad(r, now))
                    && (5 <= r.attempts < 15 ==> (IsBad(r, now) <==> r.lastSuccess == NEVER))
                    && (15 <= r.attempts ==>
                          (IsBad(r, now) <==> r.lastSuccess <= now - 604800 || r.lastSuccess == NEVER)))
  {
  }

  /** An address that worked is bad again only once it has not been heard of for two weeks, or is
      dated ahead, and never within a minute. */
  lemma GoodLasts(r: Known, now: int, later: int)
    ensures IsBad(Succeeded(r, now), later) <==>
            later >= now + 60 && !(later - 1209600 <= r.timestamp <= later + 600)
  {
  }

  /** As long as nothing more is heard of it, a bad address stays bad. */
  lemma BadLasts(r: Known, now: int, later: int)
    requires IsBad(r, now) && now <= later && r.timestamp <= now + 600
    ensures IsBad(r, later)
  {
  }

  class AddrManager {
    var index: map<Key, Known>
    var newBuckets: seq<set<Key>>
    var tried: seq<seq<Key>>
    var nNew: int
    var nTried: int

    function Contents(): Book
      reads this
    {
      Book(index, newBuckets, tried, nNew, nTried)
    }

    ghost predicate Valid()
      reads this
    {
      InOrder(Contents(), {})
    }

    constructor ()
      ensures Valid() && index == map[]
    {
      index := map[];
      newBuckets := seq(NEW_BUCKETS, _ => {});
      tried := seq(TRIED_BUCKETS, _ => []);
      nNew, nTried := 0, 0;
      new;
      forall k ensures FiledRight(Contents(), k) { NoSlots(tried, k); }
      assert Untried(index) == {} && Tried(index) == {};
    }

    /** Takes one address out of a new bucket. */
    method Forget(bucket: nat, k: Key, ghost pending: set<Key>)
      requires InOrder(Contents(), pending) && bucket < NEW_BUCKETS && k in newBuckets[bucket] && k !in pending
      modifies this
      ensures Contents() == Drop(old(Contents()), bucket, k) && InOrder(Contents(), pending)
    {
      DropKeeps(Contents(), bucket, k, pending);
      hide InOrder;
      var r := index[k];
      newBuckets := newBuckets[bucket := newBuckets[bucket] - {k}];
      if r.refs - 1 == 0 {
        nNew := nNew - 1;
        index := index - {k};
      } else {
        index := index[k := r.(refs := r.refs - 1)];
      }
    }

    /** Throws out the bad addresses of a bucket and finds the oldest of the others. */
    method SweepBad(bucket: nat, now: int, ghost pending: set<Key>) returns (oldest: Option<Key>, ghost gone: set<Key>)
      requires InOrder(Contents(), pending) && bucket < NEW_BUCKETS && pending !! newBuckets[bucket]
      modifies this
      ensures InOrder(Contents(), pending) && old(newBuckets)[bucket] <= old(index).Keys
      ensures gone == BadOnes(old(index), old(newBuckets)[bucket], now)
      ensures Contents() == DropAll(old(Contents()), bucket, gone)
      ensures OldestSoFar(old(index), old(newBuckets)[bucket], oldest, now)
    {
      ghost var b := Contents();
      BucketIsKnown(b, bucket, pending);
      DropNone(b, bucket);
      NothingSwept(b.index, now);
      var todo, done: set<Key> := newBuckets[bucket], {};
      oldest, gone := None, {};
      while todo != {}
        invariant done !! todo && done + todo == b.newBuckets[bucket]
        invariant Swept(b, Contents(), bucket, done, oldest, gone, now, pending)
        decreases todo
      {
        hide Swept, InOrder;
        var k :| k in todo;
        oldest, gone := SweepOne(bucket, k, oldest, now, b, done, gone, pending);
        todo, done := todo - {k}, done + {k};
      }
      assert done == b.newBuckets[bucket];
    }

    /** One step of the sweep. */
    method SweepOne(bucket: nat, k: Key, best: Option<Key>, now: int, ghost b: Book, ghost done: set<Key>,
                    ghost dropped: set<Key>, ghost pending: set<Key>)
      returns (oldest: Option<Key>, ghost gone: set<Key>)
      requires bucket < NEW_BUCKETS && bucket < |b.newBuckets| && pending !! b.newBuckets[bucket]
      requires Swept(b, Contents(), bucket, done, best, dropped, now, pending)
      requires k in b.newBuckets[bucket] && k !in done
      modifies this
      ensures Swept(b, Contents(), bucket, done + {k}, oldest, gone, now, pending)
    {
      hide InOrder, DropAll, Drop, IsBad, OldestSoFar, BadOnes;
      oldest, gone := best, dropped;
      SweptNext(b.index, done, k, best, now);
      StillThere(b, bucket, gone, k);
      if best.Some? { StillThere(b, bucket, gone, best.value); }
      if IsBad(index[k], now) {
        DropNext(b, bucket, gone, k);
        Forget(bucket, k, pending);
        gone := gone + {k};
      } else if oldest.None? || index[k].timestamp <= index[oldest.value].timestamp {
        oldest := Some(k);
      }
    }

    /** Makes room in a new bucket. */
    method ExpireNew(bucket: nat, now: int, ghost pending: set<Key>) returns (ghost gone: set<Key>)
      requires InOrder(Contents(), pending) && bucket < NEW_BUCKETS && pending !! newBuckets[bucket]
      modifies this
      ensures InOrder(Contents(), pending) && old(newBuckets)[bucket] <= old(index).Keys
      ensures Contents() == DropAll(old(Contents()), bucket, gone)
      ensures Expired(old(index), old(newBuckets)[bucket], gone, now)
    {
      ghost var b := Contents();
      var oldest;
      oldest, gone := SweepBad(bucket, now, pending);
      BucketIsKnown(b, bucket, pending);
      ExpiredIs(b.index, b.newBuckets[bucket], oldest, now);
      hide InOrder, DropAll, Drop, IsBad, Expired, OldestSoFar, BadOnes;
      if oldest.Some? {
        var k := oldest.value;
        StillThere(b, bucket, gone, k);
        DropNext(b, bucket, gone, k);
        Forget(bucket, k, pending);
        gone := gone + {k};
      }
    }

    /** Records what an announcement says; true if the address should be filed once more. */
    method Note(k: Key, timestamp: int, services: set<nat>, bucket: nat, draw: nat) returns (file: bool)
      requires Valid() && bucket < NEW_BUCKETS
      modifies this
      ensures Contents() == Noted(old(Contents()), k, timestamp, services)
      ensures InOrder(Contents(), if k in old(index) then {} else {k})
      ensures file == !Skips(old(Contents()), k, bucket, draw)
      ensures file ==> !index[k].tried && index[k].refs < BUCKETS_PER_ADDRESS && k !in newBuckets[bucket]
    {
      ghost var b := Contents();
      KnownFacts(b, k);
      if k in index {
        TouchKeeps(b, k, Seen(index[k], timestamp, services));
        hide InOrder;
        index := index[k := Seen(index[k], timestamp, services)];
        var r := index[k];
        if r.tried || r.refs == BUCKETS_PER_ADDRESS { return false; }
        var factor := 2 * r.refs;
        assert factor > 0;
        if draw % factor != 0 { return false; }
      } else {
        InsertKeeps(b, k, Known(0, false, timestamp, services, 0, NEVER, NEVER));
        hide InOrder;
        index := index[k := Known(0, false, timestamp, services, 0, NEVER, NEVER)];
        nNew := nNew + 1;
      }
      file := k !in newBuckets[bucket];
    }

    /** Files an address in a new bucket, expiring others first if the bucket is full. */
    method File(k: Key, bucket: nat, now: int, ghost pending: set<Key>) returns (ghost gone: set<Key>)
      requires InOrder(Contents(), pending) && pending <= {k} && bucket < NEW_BUCKETS && k in index
      requires !index[k].tried && index[k].refs < BUCKETS_PER_ADDRESS && k !in newBuckets[bucket]
      modifies this
      ensures Valid() && FiledOnce(old(Contents()), Contents(), bucket, k, gone, now)
    {
      ghost var n := Contents();
      BucketIsKnown(n, bucket, pending);
      hide InOrder, DropAll, Expired, IsBad, AddRef;
      gone := MakeRoom(bucket, now, pending);
      NotGone(n, bucket, gone, k);
      AddTo(k, bucket, pending);
      assert pending - {k} == {};
    }

    method AddTo(k: Key, bucket: nat, ghost pending: set<Key>)
      requires InOrder(Contents(), pending) && bucket < NEW_BUCKETS && bucket < |newBuckets| && k in index
      requires !index[k].tried && index[k].refs < BUCKETS_PER_ADDRESS
      requires k !in newBuckets[bucket] && |newBuckets[bucket]| <= NEW_BUCKET_SIZE
      modifies this
      ensures Contents() == AddRef(old(Contents()), bucket, k) && InOrder(Contents(), pending - {k})
    {
      AddRefKeeps(Contents(), bucket, k, pending);
      hide InOrder;
      index := index[k := index[k].(refs := index[k].refs + 1)];
      newBuckets := newBuckets[bucket := newBuckets[bucket] + {k}];
    }

    method MakeRoom(bucket: nat, now: int, ghost pending: set<Key>) returns (ghost gone: set<Key>)
      requires InOrder(Contents(), pending) && bucket < NEW_BUCKETS && pending !! newBuckets[bucket]
      modifies this
      ensures InOrder(Contents(), pending) && old(newBuckets)[bucket] <= old(index).Keys
      ensures Contents() == DropAll(old(Contents()), bucket, gone) && gone <= old(newBuckets)[bucket]
      ensures |newBuckets[bucket]| <= NEW_BUCKET_SIZE
      ensures if |old(newBuckets)[bucket]| > NEW_BUCKET_SIZE
              then Expired(old(index), old(newBuckets)[bucket], gone, now)
              else gone == {}
    {
      ghost var n := Contents();
      BucketIsKnown(n, bucket, pending);
      hide InOrder, DropAll, Expired;
      gone := {};
      if |newBuckets[bucket]| > NEW_BUCKET_SIZE {
        gone := ExpireNew(bucket, now, pending);
        ExpiredMakesRoom(n, bucket, gone, now, pending);
      } else {
        DropNone(n, bucket);
      }
    }

    /** Hears of an address: adds it, or files a known one once more. */
    method UpdateAddress(routable: bool, k: Key, timestamp: int, services: set<nat>, bucket: nat, draw: nat, now: int)
      returns (ghost gone: set<Key>)
      requires Valid() && bucket < NEW_BUCKETS
      modifies this
      ensures Valid() && |old(newBuckets)| == NEW_BUCKETS
      ensures !routable ==> Contents() == old(Contents())
      ensures routable ==>
        var n := Noted(old(Contents()), k, timestamp, services);
        if Skips(old(Contents()), k, bucket, draw) then Contents() == n
        else FiledOnce(n, Contents(), bucket, k, gone, now)
    {
      gone := {};
      BucketIsKnown(Contents(), bucket, {});
      if !routable { return; }
      ghost var b := Contents();
      var file := Note(k, timestamp, services, bucket, draw);
      if file {
        gone := File(k, bucket, now, if k in b.index then {} else {k});
      } else {
        assert k in b.index;
      }
    }

    /** Takes an address out of all new buckets; returns the first that held it. */
    method Unfile(k: Key) returns (first: nat)
      requires k in index && index[k].refs == Holding(newBuckets, k) && |newBuckets| == NEW_BUCKETS
      modifies this
      ensures newBuckets == Unfiled(old(newBuckets), k)
      ensures index == old(index)[k := old(index)[k].(refs := 0)]
      ensures tried == old(tried) && nNew == old(nNew) && nTried == old(nTried)
      ensures first == FirstHolding(old(newBuckets), k)
    {
      var removed;
      newBuckets, removed, first := RemoveFromAll(newBuckets, k);
      index := index[k := index[k].(refs := index[k].refs - removed)];
    }

    /** Walks over the buckets, counting the ones that held the address. */
    static method RemoveFromAll(buckets: seq<set<Key>>, k: Key)
      returns (left: seq<set<Key>>, removed: nat, first: nat)
      ensures left == Unfiled(buckets, k) && removed == Holding(buckets, k) && first == FirstHolding(buckets, k)
    {
      hide PartlyUnfiled, Holding, FirstHolding, Unfiled;
      left, removed, first := buckets, 0, |buckets|;
      UnfiledEnds(buckets, k);
      for i := 0 to |buckets|
        invariant left == PartlyUnfiled(buckets, i, k) && removed == Holding(buckets[..i], k)
        invariant if removed > 0 then first == FirstHolding(buckets, k) else first == |buckets|
        invariant removed == 0 ==> forall j :: 0 <= j < i ==> k !in buckets[j]
      {
        UnfiledNext(buckets, i, k);
        if k in left[i] {
          if removed == 0 {
            first := i;
            FirstIs(buckets, k, i);
          }
          left := left[i := left[i] - {k}];
          removed := removed + 1;
        }
      }
      if removed == 0 { FirstIs(buckets, k, |buckets|); }
    }

    /** The first of the oldest addresses in a tried bucket. */
    method PickTried(bucket: seq<Key>) returns (j: nat)
      requires bucket != [] && forall k :: k in bucket ==> k in index
      ensures IsOldestTried(index, bucket, j)
    {
      j := 0;
      for i := 1 to |bucket|
        invariant j < i
        invariant forall x :: 0 <= x < i ==> index[bucket[j]].timestamp <= index[bucket[x]].timestamp
        invariant forall x :: 0 <= x < j ==> index[bucket[j]].timestamp < index[bucket[x]].timestamp
      {
        if index[bucket[j]].timestamp > index[bucket[i]].timestamp { j := i; }
      }
    }

    /** Moves an untried address to a tried bucket with room. */
    method MoveToTried(k: Key, bucket: nat)
      requires Valid() && k in index && !index[k].tried
      requires bucket < TRIED_BUCKETS && |tried| == TRIED_BUCKETS && |tried[bucket]| < TRIED_BUCKET_SIZE
      modifies this
      ensures Valid() && Contents() == Promote(old(Contents()), k, bucket)
    {
      hide InOrder, Unfiled, Holding, FirstHolding;
      ghost var r := index[k];
      PromoteKeeps(Contents(), k, bucket);
      UntriedFacts(Contents(), k);
      var first := Unfile(k);
      nNew := nNew - 1;
      index := index[k := index[k].(tried := true)];
      assert index == old(index)[k := r.(refs := 0, tried := true)];
      tried := tried[bucket := tried[bucket] + [k]];
      nTried := nTried + 1;
    }

    /** Moves an untried address to a full tried bucket, in exchange for its oldest member. */
    method SwapWithTried(k: Key, bucket: nat, homeOf: Key -> nat) returns (j: nat)
      requires Valid() && k in index && !index[k].tried && forall x :: homeOf(x) < NEW_BUCKETS
      requires bucket < TRIED_BUCKETS && |tried| == TRIED_BUCKETS && |tried[bucket]| == TRIED_BUCKET_SIZE
      modifies this
      ensures Valid()
      ensures AllKnown(old(Contents()), bucket) && |old(newBuckets)| == NEW_BUCKETS
      ensures IsOldestTried(old(index), old(tried)[bucket], j)
      ensures var home := Home(old(newBuckets), k, homeOf(old(tried)[bucket][j]));
              home < NEW_BUCKETS && Contents() == Swap(old(Contents()), k, bucket, j, home)
    {
      UntriedFacts(Contents(), k);
      TriedFacts(Contents(), bucket, k);
      hide InOrder, Unfiled, Holding, FirstHolding, IsOldestTried;
      j := PickTried(tried[bucket]);
      Exchange(k, bucket, j, homeOf(tried[bucket][j]));
    }

    /** k takes slot j; who was there goes to their own new bucket or to one k has left. */
    method Exchange(k: Key, bucket: nat, j: nat, own: nat)
      requires Valid() && k in index && !index[k].tried && own < NEW_BUCKETS == |newBuckets|
      requires bucket < TRIED_BUCKETS && |tried| == TRIED_BUCKETS && j < |tried[bucket]| && AllKnown(Contents(), bucket)
      requires k !in tried[bucket]
      modifies this
      ensures Valid()
      ensures var home := Home(old(newBuckets), k, own);
              home < NEW_BUCKETS && Contents() == Swap(old(Contents()), k, bucket, j, home)
    {
      hide InOrder, Unfiled, Holding, FirstHolding;
      var out := tried[bucket][j];
      ghost var b, r, s := Contents(), index[k], index[out];
      UntriedFacts(b, k);
      HomeHasRoom(b, k, own);
      SwapKeeps(b, k, bucket, j, Home(b.newBuckets, k, own));
      var first := Unfile(k);
      var home := own;
      if |newBuckets[home]| >= NEW_BUCKET_SIZE { home := first; }
      index := index[k := index[k].(tried := true)][out := index[out].(tried := false, refs := index[out].refs + 1)];
      assert index == b.index[k := r.(refs := 0, tried := true)][out := s.(refs := s.refs + 1, tried := false)];
      tried := tried[bucket := tried[bucket][j := k]];
      newBuckets := newBuckets[home := newBuckets[home] + {out}];
    }

    /** Marks an address as good after a successful connection. */
    method Good(k: Key, now: int, bucket: nat, homeOf: Key -> nat) returns (ghost j: nat)
      requires Valid() && bucket < TRIED_BUCKETS && forall x :: homeOf(x) < NEW_BUCKETS
      modifies this
      ensures Valid() && MadeGood(old(Contents()), Contents(), k, now, bucket, homeOf, j)
    {
      j := 0;
      ghost var b := Contents();
      BucketIsKnown(b, 0, {});
      TriedCount(b, bucket);
      if k !in index { return; }
      TouchKeeps(b, k, Succeeded(index[k], now));
      hide InOrder, Promote, Swap;
      index := index[k := Succeeded(index[k], now)];
      if index[k].tried { return; }
      if |tried[bucket]| < TRIED_BUCKET_SIZE {
        MoveToTried(k, bucket);
      } else {
        j := SwapWithTried(k, bucket, homeOf);
      }
    }
  }

  predicate AllKnown(b: Book, bucket: nat) { bucket < |b.tried| && forall x :: x in b.tried[bucket] ==> x in b.index }

  /** The bucket an evicted address goes to: its own, or if that is full the first one the
      promoted address has just left. */
  function Home(buckets: seq<set<Key>>, k: Key, own: nat): nat
    requires own < |buckets|
  {
    if |Unfiled(buckets, k)[own]| >= NEW_BUCKET_SIZE then FirstHolding(buckets, k) else own
  }

  ghost predicate MadeGood(b: Book, c: Book, k: Key, now: int, bucket: nat, homeOf: Key -> nat, j: nat) {
    && |b.newBuckets| == NEW_BUCKETS && |b.tried| == TRIED_BUCKETS && bucket < TRIED_BUCKETS
    && if k !in b.index then c == b
       else
         var t := b.(index := b.index[k := Succeeded(b.index[k], now)]);
         if b.index[k].tried then c == t
         else if |b.tried[bucket]| < TRIED_BUCKET_SIZE then c == Promote(t, k, bucket)
         else
           && AllKnown(t, bucket) && IsOldestTried(t.index, t.tried[bucket], j)
           && homeOf(t.tried[bucket][j]) < NEW_BUCKETS
           && var home := Home(t.newBuckets, k, homeOf(t.tried[bucket][j]));
           && home < NEW_BUCKETS && c == Swap(t, k, bucket, j, home)
  }

  /** Whoever is evicted goes to their own bucket if that has fewer than 64 addresses, and otherwise
      to the first that k was in, where there is room. */
  lemma HomeHasRoom(b: Book, k: Key, own: nat)
    requires InOrder(b, {}) && k in b.index && !b.index[k].tried && own < NEW_BUCKETS
    ensures |b.newBuckets| == 1024
    ensures var left, home := Unfiled(b.newBuckets, k), Home(b.newBuckets, k, own);
            && home < 1024 && |left[home]| <= 64
            && (|left[own]| < 64 ==> home == own)
            && (|left[own]| >= 64 ==> k in b.newBuckets[home] && forall i :: 0 <= i < home ==> k !in b.newBuckets[i])
  {
    UntriedFacts(b, k);
    var first := FirstHolding(b.newBuckets, k);
    SmallerSet(b.newBuckets[first], k);
  }

  /** Marking an address good loses no address: it is tried afterwards, and at most one other
      record changes, that of the oldest address of a full tried bucket, which is new again. */
  lemma GoodMovesOne(b: Book, c: Book, k: Key, now: int, bucket: nat, homeOf: Key -> nat, j: nat, x: Key)
    requires MadeGood(b, c, k, now, bucket, homeOf, j) && InOrder(b, {}) && k in b.index && x in b.index
    ensures c.index.Keys == b.index.Keys && c.index[k].tried && c.index[k].lastSuccess == now
    ensures x != k && c.index[x] != b.index[x] ==>
              && x in b.tried[bucket] && |b.tried[bucket]| == 256 && b.index[x].tried
              && (forall y :: y in b.tried[bucket] && y in b.index ==> b.index[x].timestamp <= b.index[y].timestamp)
              && c.index[x] == b.index[x].(refs := 1, tried := false)
  {
    hide InOrder, IsOldestTried, Unfiled, Home;
    TriedCount(b, bucket);
    if !b.index[k].tried && |b.tried[bucket]| >= TRIED_BUCKET_SIZE {
      OldestOfAll(b, k, now, bucket, j);
      TriedIsKnown(b, bucket, j, {});
      TriedHasNoRefs(b, b.tried[bucket][j]);
    }
  }

  lemma TriedHasNoRefs(b: Book, k: Key)
    requires InOrder(b, {}) && k in b.index && b.index[k].tried
    ensures b.index[k].refs == 0
  {
    assert FiledRight(b, k);
  }

  lemma OldestOfAll(b: Book, k: Key, now: int, bucket: nat, j: nat)
    requires k in b.index && bucket < |b.tried|
    requires var t := b.(index := b.index[k := Succeeded(b.index[k], now)]);
             AllKnown(t, bucket) && IsOldestTried(t.index, t.tried[bucket], j)
    ensures j < |b.tried[bucket]|
    ensures forall y :: y in b.tried[bucket] && y in b.index ==>
              b.tried[bucket][j] in b.index && b.index[b.tried[bucket][j]].timestamp <= b.index[y].timestamp
  {
  }

  lemma UntriedFacts(b: Book, k: Key)
    requires InOrder(b, {}) && k in b.index && !b.index[k].tried
    ensures |b.newBuckets| == NEW_BUCKETS && b.index[k].refs == Holding(b.newBuckets, k)
    ensures FirstHolding(b.newBuckets, k) < NEW_BUCKETS
  {
    assert FiledRight(b, k);
    HoldingNone(b.newBuckets, k);
  }

  lemma TriedFacts(b: Book, bucket: nat, k: Key)
    requires InOrder(b, {}) && bucket < TRIED_BUCKETS && k in b.index && !b.index[k].tried
    ensures AllKnown(b, bucket) && k !in b.tried[bucket]
  {
    forall x | x in b.tried[bucket] ensures x in b.index && x != k {
      var j :| 0 <= j < |b.tried[bucket]| && b.tried[bucket][j] == x;
      TriedIsKnown(b, bucket, j, {});
    }
  }

  lemma TriedCount(b: Book, bucket: nat)
    requires InOrder(b, {}) && bucket < TRIED_BUCKETS
    ensures |b.tried| == TRIED_BUCKETS && |b.tried[bucket]| <= TRIED_BUCKET_SIZE
  {
  }

  function PartlyUnfiled(buckets: seq<set<Key>>, i: nat, k: Key): (left: seq<set<Key>>)
    requires i <= |buckets|
    ensures |left| == |buckets|
  {
    Unfiled(buckets[..i], k) + buckets[i..]
  }

  lemma UnfiledEnds(buckets: seq<set<Key>>, k: Key)
    ensures PartlyUnfiled(buckets, 0, k) == buckets && PartlyUnfiled(buckets, |buckets|, k) == Unfiled(buckets, k)
    ensures Holding(buckets[..0], k) == 0 && buckets[..|buckets|] == buckets
  {
    assert buckets[..|buckets|] == buckets;
  }

  lemma UnfiledNext(buckets: seq<set<Key>>, i: nat, k: Key)
    requires i < |buckets|
    ensures var now := PartlyUnfiled(buckets, i, k);
            && now[i] == buckets[i]
            && PartlyUnfiled(buckets, i + 1, k) == (if k in buckets[i] then now[i := buckets[i] - {k}] else now)
            && Holding(buckets[..i + 1], k) == Holding(buckets[..i], k) + (if k in buckets[i] then 1 else 0)
  {
    assert buckets[..i + 1][..i] == buckets[..i];
    if k !in buckets[i] { assert buckets[i] - {k} == buckets[i]; }
  }

  lemma FirstIs(buckets: seq<set<Key>>, k: Key, i: nat)
    requires i <= |buckets| && (i < |buckets| ==> k in buckets[i]) && forall j :: 0 <= j < i ==> k !in buckets[j]
    ensures FirstHolding(buckets, k) == i
  {
  }

  /** An address in a bucket once more, after what had to go. */
  ghost predicate FiledOnce(n: Book, c: Book, bucket: nat, k: Key, gone: set<Key>, now: int) {
    && bucket < |n.newBuckets| && n.newBuckets[bucket] <= n.index.Keys && k in n.index
    && (if |n.newBuckets[bucket]| > NEW_BUCKET_SIZE then Expired(n.index, n.newBuckets[bucket], gone, now)
        else gone == {})
    && k in DropAll(n, bucket, gone).index
    && c == AddRef(DropAll(n, bucket, gone), bucket, k)
  }

  lemma KnownFacts(b: Book, k: Key)
    requires InOrder(b, {})
    ensures |b.newBuckets| == NEW_BUCKETS
    ensures k in b.index ==> b.index[k].refs <= BUCKETS_PER_ADDRESS && (!b.index[k].tried ==> b.index[k].refs >= 1)
    ensures k !in b.index ==> forall i :: 0 <= i < NEW_BUCKETS ==> k !in b.newBuckets[i]
  {
    assert FiledRight(b, k);
  }

  lemma ExpiredMakesRoom(b: Book, bucket: nat, gone: set<Key>, now: int, pending: set<Key>)
    requires InOrder(b, pending) && bucket < NEW_BUCKETS && b.newBuckets[bucket] != {}
    requires b.newBuckets[bucket] <= b.index.Keys && Expired(b.index, b.newBuckets[bucket], gone, now)
    ensures gone <= b.newBuckets[bucket] && |DropAll(b, bucket, gone).newBuckets[bucket]| <= NEW_BUCKET_SIZE
  {
    hide IsBad;
    var s := b.newBuckets[bucket];
    var x :| x in gone;
    SmallerSet(s, x);
    Fewer(s - gone, s - {x});
  }

  lemma NotGone(b: Book, bucket: nat, gone: set<Key>, k: Key)
    requires bucket < |b.newBuckets| && gone <= b.newBuckets[bucket] && k in b.index && k !in b.newBuckets[bucket]
    ensures var c := DropAll(b, bucket, gone);
            && k in c.index && c.index[k] == b.index[k] && |c.newBuckets| == |b.newBuckets|
            && k !in c.newBuckets[bucket]
  {
  }

  /** The state of a sweep: the bad addresses met so far are gone. */
  ghost predicate Swept(b: Book, c: Book, bucket: nat, done: set<Key>, oldest: Option<Key>, gone: set<Key>, now: int,
                        pending: set<Key>)
    requires bucket < |b.newBuckets|
  {
    && b.newBuckets[bucket] <= b.index.Keys && done <= b.newBuckets[bucket] && gone <= done
    && InOrder(c, pending) && c == DropAll(b, bucket, gone)
    && gone == BadOnes(b.index, done, now) && OldestSoFar(b.index, done, oldest, now)
  }

  lemma BucketIsKnown(b: Book, bucket: nat, pending: set<Key>)
    requires InOrder(b, pending) && bucket < NEW_BUCKETS
    ensures |b.newBuckets| == NEW_BUCKETS && b.newBuckets[bucket] <= b.index.Keys
  {
  }

  lemma ExpiredIs(index: map<Key, Known>, bucket: set<Key>, oldest: Option<Key>, now: int)
    requires bucket <= index.Keys && OldestSoFar(index, bucket, oldest, now)
    ensures var bad := BadOnes(index, bucket, now);
            && (oldest.Some? ==> oldest.value in bucket && oldest.value !in bad)
            && Expired(index, bucket, bad + (if oldest.Some? then {oldest.value} else {}), now)
            && bad + {} == bad
  {
    hide IsBad;
    var bad := BadOnes(index, bucket, now);
    if oldest.None? { assert bad == bucket; }
  }

  lemma NothingSwept(index: map<Key, Known>, now: int)
    ensures BadOnes(index, {}, now) == {} && OldestSoFar(index, {}, None, now)
  {
  }

  lemma SweptNext(index: map<Key, Known>, done: set<Key>, k: Key, oldest: Option<Key>, now: int)
    requires done <= index.Keys && k in index && k !in done && OldestSoFar(index, done, oldest, now)
    ensures BadOnes(index, done + {k}, now) == BadOnes(index, done, now) + if IsBad(index[k], now) then {k} else {}
    ensures oldest.Some? ==> oldest.value in done && oldest.value !in BadOnes(index, done, now)
    ensures OldestSoFar(index, done + {k},
              if IsBad(index[k], now) then oldest
              else if oldest.None? || index[k].timestamp <= index[oldest.value].timestamp then Some(k)
              else oldest, now)
  {
    hide IsBad;
  }

  predicate OldestSoFar(index: map<Key, Known>, bucket: set<Key>, oldest: Option<Key>, now: int)
    requires bucket <= index.Keys
  {
    if oldest.Some? then IsOldestGood(index, bucket, oldest.value, now)
    else forall k :: k in bucket ==> IsBad(index[k], now)
  }

  lemma {:induction false} NoSlots(buckets: seq<seq<Key>>, k: Key)
    requires forall i :: 0 <= i < |buckets| ==> buckets[i] == []
    ensures Slots(buckets, k) == 0
  {
    if buckets != [] { NoSlots(buckets[..|buckets| - 1], k); }
  }

  lemma DropNone(b: Book, bucket: nat)
    requires bucket < |b.newBuckets|
    ensures DropAll(b, bucket, {}) == b
  {
    var c := DropAll(b, bucket, {});
    assert b.newBuckets[bucket] - {} == b.newBuckets[bucket];
    assert c.newBuckets == b.newBuckets;
    assert c.index == b.index;
    assert Forgotten(b, {}) == {};
  }

  lemma StillThere(b: Book, bucket: nat, gone: set<Key>, k: Key)
    requires bucket < |b.newBuckets| && k in b.newBuckets[bucket] && k in b.index && k !in gone
    ensures var c := DropAll(b, bucket, gone); k in c.index && c.index[k] == b.index[k] && k in c.newBuckets[bucket]
  {
  }
}
