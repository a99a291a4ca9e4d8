/** The first phase of a reorganization checks the blocks to attach through one view that is
    never written or committed, over the unspent set of the old tip.  The election code runs on
    that view too, from the old tip's state. */
module CheckedTally {
  import opened Options
  import opened Ledger
  import opened UtxoViews
  import opened ReorgViews
  import opened ChainStore
  import opened Elections
  import opened ElectionTally

  /** The view v over the stored set db shows u, and the block of the step goes through it. */
  ghost predicate Goes(db: Coins, u: Coins, v: Entries, s: ReorgViews.Step) {
    && Fetched(db, v, s.loaded, s.b, s.height)
    && match s
       case Attach(b, height, _) => CanConnect(u, b, height) && FreshIds(u, b)
       case Detach(b, height, _, before) =>
         CanConnect(before, b, height) && FreshIds(before, b) && u == Connect(before, b, height)
  }

  /** Every entry is there and marked modified. */
  predicate Moved(v: Entries) { forall o :: o in v ==> v[o].Some? && v[o].value.modified }

  ghost function ViewAfter(db: Coins, u: Coins, v: Entries, s: ReorgViews.Step): Entries
    requires Moved(v) && Shows(db, v, u, {}) && Goes(db, u, v, s)
  {
    match s
    case Attach(b, height, loaded) =>
      ConnectsFrom(db, v, loaded, b, height, u);
      ConnectedBlock(loaded, b, height).value.entries
    case Detach(b, height, loaded, before) =>
      DisconnectedBlock(loaded, b, height, JournalEntry(before, b, height))
  }

  // ----- which outputs have entries

  function InputsOf(txs: seq<Tx>): set<OutPoint> {
    if txs == [] then {} else (set o | o in txs[0].inputs) + InputsOf(txs[1..])
  }

  lemma {:induction false} InputsAreSpent(txs: seq<Tx>, o: OutPoint)
    ensures o in InputsOf(txs) <==> Spends(txs, o)
  {
    if txs != [] {
      InputsAreSpent(txs[1..], o);
      SpendsSplit(txs, o);
    }
  }

  /** The outputs a block creates or spends. */
  function TouchedBy(b: Block): set<OutPoint> { CreatedKeys(Transactions(b)) + InputsOf(b.txs) }

  // ----- what an output says

  /** A transaction id is a hash of the transaction, so an output has the same amount and script
      wherever it appears.  Heights may differ. */
  type Outs = OutPoint -> Coin

  predicate Same(c: Coin, d: Coin) { c.amount == d.amount && c.script == d.script }

  predicate Genuine(outs: Outs, coins: Coins) { forall o :: o in coins ==> Same(outs(o), coins[o]) }

  predicate GenuineView(outs: Outs, v: Entries) {
    forall o :: o in v && v[o].Some? ==> Same(outs(o), v[o].value.coin)
  }

  /** The coins the step brings in. */
  predicate Brings(outs: Outs, s: ReorgViews.Step) {
    Genuine(outs, CreatedByBlock(s.b, s.height)) && (s.Detach? ==> Genuine(outs, s.before))
  }

  // ----- one entry after one step

  /** What holds of every entry after a step. */
  ghost predicate Followed(outs: Outs, db: Coins, v: Entries, b: Block, x: Entries, u: Coins, o: OutPoint) {
    && LookAt(db, x, o) == Get(u, o)
    && (o in x <==> o in v || o in TouchedBy(b))
    && (o in x ==> x[o].Some? && x[o].value.modified && Same(outs(o), x[o].value.coin))
  }

  lemma AttachedAt(outs: Outs, db: Coins, u: Coins, v: Entries, s: ReorgViews.Step, o: OutPoint)
    requires Moved(v) && Shows(db, v, u, {}) && Goes(db, u, v, s) && s.Attach?
    requires Genuine(outs, db) && GenuineView(outs, v) && Brings(outs, s)
    ensures Followed(outs, db, v, s.b, ViewAfter(db, u, v, s), CoinsAfter(u, s), o)
  {
    ConnectsFrom(db, v, s.loaded, s.b, s.height, u);
    var x := ViewAfter(db, u, v, s);
    assert LookAt(db, x, o) == Get(CoinsAfter(u, s), o);
    assert LookAt(db, v, o) == Get(u, o);
    BlockConnects(s.loaded, s.b, s.height, o);
    BlockCreatesKeys(s.b, s.height);
    InputsAreSpent(s.b.txs, o);
    if o !in CreatedKeys(Transactions(s.b)) {
      LoadedForeign(db, v, s, o);
      ForeignToBlock(u, s.b, s.height, o);
      if Spends(s.b.txs, o) { InputIsLoaded(db, u, v, s, o); }
      hide Fetched, ConnectedBlock, CanConnect, Connect, Shows, FreshIds, Spends, CreatedKeys, CreatedByBlock;
    }
  }

  /** An input that the block does not create itself has been loaded. */
  lemma InputIsLoaded(db: Coins, u: Coins, v: Entries, s: ReorgViews.Step, o: OutPoint)
    requires Goes(db, u, v, s) && s.Attach? && o !in CreatedKeys(Transactions(s.b)) && Spends(s.b.txs, o)
    ensures o in s.loaded
  {
    ForeignToBlock(u, s.b, s.height, o);
    var i :| 0 <= i < |s.b.txs| && o in s.b.txs[i].inputs;
  }

  // ----- detaching keeps entries and coins

  /** The entry is there and its coin says what the output says. */
  predicate Present(outs: Outs, v: Entries, o: OutPoint) {
    o in v && v[o].Some? && Same(outs(o), v[o].value.coin)
  }

  lemma {:induction false} SpentSay(outs: Outs, u: Coins, inputs: seq<OutPoint>, i: nat)
    requires Genuine(outs, u) && CanSpend(u, inputs) && i < |inputs|
    ensures Same(outs(inputs[i]), Spent(u, inputs)[i])
  {
    if i > 0 { SpentSay(outs, u - {inputs[0]}, inputs[1..], i - 1); }
  }

  predicate AllSay(outs: Outs, inputs: seq<OutPoint>, coins: seq<Coin>)
    requires |coins| == |inputs|
  {
    forall i :: 0 <= i < |inputs| ==> Same(outs(inputs[i]), coins[i])
  }

  lemma {:induction false} RestoredSay(outs: Outs, v: Entries, inputs: seq<OutPoint>, coins: seq<Coin>, o: OutPoint)
    requires |coins| == |inputs| && AllSay(outs, inputs, coins)
    ensures Present(outs, v, o) || o in inputs ==> Present(outs, Restored(v, inputs, coins), o)
  {
    if inputs != [] { RestoredSay(outs, v, inputs[1..], coins[1..], o); }
  }

  lemma RemovedSay(outs: Outs, v: Entries, tx: Tx, height: nat, isCoinBase: bool, o: OutPoint)
    requires Genuine(outs, Created(tx, height, isCoinBase))
    requires o in v && v[o].Some? ==> Present(outs, v, o)
    ensures Present(outs, v, o) || o in Created(tx, height, isCoinBase) ==>
              Present(outs, Removed(v, tx, height, isCoinBase), o)
    ensures var w := Removed(v, tx, height, isCoinBase); o in w && w[o].Some? ==> Present(outs, w, o)
  {
  }

  predicate Says(outs: Outs, v: Entries, o: OutPoint) { o in v && v[o].Some? ==> Present(outs, v, o) }

  lemma {:induction false} SpendStaysGenuine(outs: Outs, u: Coins, inputs: seq<OutPoint>)
    requires Genuine(outs, u)
    ensures Genuine(outs, Spend(u, inputs))
  {
    if inputs != [] { SpendStaysGenuine(outs, u - {inputs[0]}, inputs[1..]); }
  }

  lemma FirstIsGenuine(outs: Outs, txs: seq<Tx>, height: nat)
    requires txs != [] && DistinctIds(txs) && Genuine(outs, CreatedByTxs(txs, height))
    ensures Genuine(outs, Created(txs[0], height, false)) && Genuine(outs, CreatedByTxs(txs[1..], height))
  {
    var first, rest := Created(txs[0], height, false), CreatedByTxs(txs[1..], height);
    TxsCreateKeys(txs[1..], height);
    CreatedHaveIds(txs[1..]);
    forall o | o in first ensures Same(outs(o), first[o]) {
      assert o !in rest && CreatedByTxs(txs, height)[o] == first[o];
    }
    forall o | o in rest ensures Same(outs(o), rest[o]) {
      assert CreatedByTxs(txs, height)[o] == rest[o];
    }
  }

  /** Undoing transactions from their journal gives every output they create or spend an entry. */
  lemma {:induction false} TxsSay(outs: Outs, v: Entries, u: Coins, txs: seq<Tx>, height: nat, o: OutPoint)
    requires CanConnectTxs(u, txs, height) && DistinctIds(txs) && Says(outs, v, o)
    requires Genuine(outs, u) && Genuine(outs, CreatedByTxs(txs, height))
    ensures var w := DisconnectedTxs(v, txs, height, SpentByTxs(u, txs, height));
            && Says(outs, w, o)
            && (Present(outs, v, o) || o in CreatedKeys(txs) || Spends(txs, o) ==> Present(outs, w, o))
    decreases txs
  {
    if txs != [] {
      hide Genuine, Present, CanSpend, Spend, Created;
      var tx, rest, k := txs[0], txs[1..], |txs[0].inputs|;
      var mid, coins := ConnectTx(u, tx, height), SpentByTxs(u, txs, height);
      FirstIsGenuine(outs, txs, height);
      MidIsGenuine(outs, u, tx, height);
      assert coins[..k] == Spent(u, tx.inputs) && coins[k..] == SpentByTxs(mid, rest, height);
      TxsSay(outs, v, mid, rest, height, o);
      var w := DisconnectedTxs(v, rest, height, coins[k..]);
      var x := Removed(w, tx, height, false);
      RemovedSay(outs, w, tx, height, false, o);
      JournalSays(outs, u, tx.inputs);
      RestoredSay(outs, x, tx.inputs, coins[..k], o);
      RestoredSays(outs, x, tx.inputs, coins[..k], o);
      SpendsSplit(txs, o);
      SameKeys(tx, 0, height, false, false);
    }
  }

  lemma MidIsGenuine(outs: Outs, u: Coins, tx: Tx, height: nat)
    requires Genuine(outs, u) && Genuine(outs, Created(tx, height, false))
    ensures Genuine(outs, ConnectTx(u, tx, height))
  {
    SpendStaysGenuine(outs, u, tx.inputs);
  }

  lemma JournalSays(outs: Outs, u: Coins, inputs: seq<OutPoint>)
    requires Genuine(outs, u) && CanSpend(u, inputs)
    ensures AllSay(outs, inputs, Spent(u, inputs))
  {
    forall i | 0 <= i < |inputs| ensures Same(outs(inputs[i]), Spent(u, inputs)[i]) { SpentSay(outs, u, inputs, i); }
  }

  lemma {:induction false} RestoredSays(outs: Outs, v: Entries, inputs: seq<OutPoint>, coins: seq<Coin>, o: OutPoint)
    requires |coins| == |inputs| && AllSay(outs, inputs, coins) && Says(outs, v, o)
    ensures Says(outs, Restored(v, inputs, coins), o)
  {
    if inputs != [] { RestoredSays(outs, v, inputs[1..], coins[1..], o); }
  }

  lemma BlockSays(outs: Outs, v: Entries, u: Coins, b: Block, height: nat, o: OutPoint)
    requires CanConnect(u, b, height) && DistinctIds(Transactions(b)) && Says(outs, v, o)
    requires Genuine(outs, u) && Genuine(outs, CreatedByBlock(b, height))
    ensures var w := DisconnectedBlock(v, b, height, JournalEntry(u, b, height));
            && Says(outs, w, o)
            && (Present(outs, v, o) || o in TouchedBy(b) ==> Present(outs, w, o))
  {
    var first, all := Created(b.coinbase, height, true), Transactions(b);
    assert all[1..] == b.txs && all[0] == b.coinbase;
    BlockIsGenuine(outs, b, height);
    assert Genuine(outs, u + first);
    hide Genuine, Present, Created, CreatedByTxs;
    TxsSay(outs, v, u + first, b.txs, height, o);
    RemovedSay(outs, DisconnectedTxs(v, b.txs, height, JournalEntry(u, b, height)), b.coinbase, height, true, o);
    InputsAreSpent(b.txs, o);
    SameKeys(b.coinbase, 0, height, false, true);
  }

  lemma BlockIsGenuine(outs: Outs, b: Block, height: nat)
    requires DistinctIds(Transactions(b)) && Genuine(outs, CreatedByBlock(b, height))
    ensures Genuine(outs, Created(b.coinbase, height, true)) && Genuine(outs, CreatedByTxs(b.txs, height))
  {
    var first, rest := Created(b.coinbase, height, true), CreatedByTxs(b.txs, height);
    assert Transactions(b)[1..] == b.txs;
    TxsCreateKeys(b.txs, height);
    CreatedHaveIds(b.txs);
    forall o | o in first ensures Same(outs(o), first[o]) {
      assert o !in rest && CreatedByBlock(b, height)[o] == first[o];
    }
    forall o | o in rest ensures Same(outs(o), rest[o]) {
      assert CreatedByBlock(b, height)[o] == rest[o];
    }
  }

  lemma DetachedAt(outs: Outs, db: Coins, u: Coins, v: Entries, s: ReorgViews.Step, o: OutPoint)
    requires Moved(v) && Shows(db, v, u, {}) && Goes(db, u, v, s) && s.Detach?
    requires Genuine(outs, db) && GenuineView(outs, v) && Brings(outs, s)
    ensures Followed(outs, db, v, s.b, ViewAfter(db, u, v, s), CoinsAfter(u, s), o)
  {
    var coins := JournalEntry(s.before, s.b, s.height);
    DisconnectsFrom(db, v, s.loaded, s.b, s.height, coins, u);
    DisconnectUndoesConnect(s.before, s.b, s.height);
    var x := ViewAfter(db, u, v, s);
    assert LookAt(db, x, o) == Get(s.before, o);
    assert o in x && x[o].Some? && x[o].value.spent ==> x[o].value.modified;
    LoadedSays(outs, db, v, s, o);
    BlockSays(outs, s.loaded, s.before, s.b, s.height, o);
    InputsAreSpent(s.b.txs, o);
    if o in CreatedKeys(Transactions(s.b)) {
      CreatedHaveIds(Transactions(s.b));
      assert o !in s.before;
    } else {
      LoadedForeign(db, v, s, o);
      BlockUndone(s.loaded, s.b, s.height, coins, o);
    }
    hide Fetched, DisconnectedBlock, CanConnect, Connect, Disconnect, Shows, FreshIds, Spends, CreatedKeys, Genuine,
         GenuineView, Brings, Cached;
  }

  lemma LoadedSays(outs: Outs, db: Coins, v: Entries, s: ReorgViews.Step, o: OutPoint)
    requires Fetched(db, v, s.loaded, s.b, s.height) && DistinctIds(Transactions(s.b))
    requires Genuine(outs, db) && GenuineView(outs, v) && Genuine(outs, CreatedByBlock(s.b, s.height))
    ensures Says(outs, s.loaded, o)
  {
    if o in s.loaded && IsNewOutput(s.b, s.height, o, s.loaded[o]) { NewSays(outs, s.b, s.height, o, s.loaded[o]); }
  }

  lemma NewSays(outs: Outs, b: Block, height: nat, o: OutPoint, e: Option<Entry>)
    requires DistinctIds(Transactions(b)) && Genuine(outs, CreatedByBlock(b, height)) && IsNewOutput(b, height, o, e)
    ensures e.Some? && Same(outs(o), e.value.coin)
  {
    var all := Transactions(b);
    var k :| 0 <= k < |all| && o in Created(all[k], height, k == 0)
             && e == Some(Entry(Created(all[k], height, k == 0)[o], false, true));
    BlockIsGenuine(outs, b, height);
    if k > 0 {
      assert all[k] == b.txs[k - 1];
      MemberIsGenuine(outs, b.txs, k - 1, height);
    }
  }

  lemma {:induction false} MemberIsGenuine(outs: Outs, txs: seq<Tx>, k: nat, height: nat)
    requires k < |txs| && DistinctIds(txs) && Genuine(outs, CreatedByTxs(txs, height))
    ensures Genuine(outs, Created(txs[k], height, false))
  {
    FirstIsGenuine(outs, txs, height);
    if k > 0 { MemberIsGenuine(outs, txs[1..], k - 1, height); }
  }

  // ----- the whole first phase

  /** The view shows u and has a modified, genuine entry for exactly the touched outputs. */
  ghost predicate Tracks(outs: Outs, db: Coins, u: Coins, v: Entries, touched: set<OutPoint>) {
    Shows(db, v, u, {}) && Moved(v) && GenuineView(outs, v) && v.Keys == touched
  }

  lemma StepTracks(outs: Outs, db: Coins, u: Coins, v: Entries, s: ReorgViews.Step, touched: set<OutPoint>)
    requires Tracks(outs, db, u, v, touched) && Goes(db, u, v, s) && Genuine(outs, db) && Brings(outs, s)
    ensures Tracks(outs, db, CoinsAfter(u, s), ViewAfter(db, u, v, s), touched + TouchedBy(s.b))
  {
    var x, u' := ViewAfter(db, u, v, s), CoinsAfter(u, s);
    hide Goes, ViewAfter, CoinsAfter, TouchedBy, Genuine, Brings, Followed;
    forall o ensures Followed(outs, db, v, s.b, x, u', o) {
      if s.Attach? { AttachedAt(outs, db, u, v, s, o); } else { DetachedAt(outs, db, u, v, s, o); }
    }
    FollowedTracks(outs, db, v, s.b, x, u', touched);
  }

  lemma FollowedTracks(outs: Outs, db: Coins, v: Entries, b: Block, x: Entries, u: Coins, touched: set<OutPoint>)
    requires v.Keys == touched && forall o :: Followed(outs, db, v, b, x, u, o)
    ensures Tracks(outs, db, u, x, touched + TouchedBy(b))
  {
    hide TouchedBy;
    forall o ensures o in x.Keys <==> o in touched + TouchedBy(b)
             ensures LookAt(db, x, o) == Get(u, o)
             ensures o in x ==> x[o].Some? && x[o].value.modified && Same(outs(o), x[o].value.coin)
    {
      assert Followed(outs, db, v, b, x, u, o);
    }
  }

  /** The outputs created or spent by the first n blocks. */
  function Touched(steps: seq<ReorgViews.Step>, n: nat): set<OutPoint>
    requires n <= |steps|
  {
    if n == 0 then {} else Touched(steps, n - 1) + TouchedBy(steps[n - 1].b)
  }

  /** The first n blocks go through the view one after the other. */
  ghost predicate Checks(outs: Outs, db: Coins, steps: seq<ReorgViews.Step>, n: nat)
    requires n <= |steps|
    decreases n, 0
  {
    Genuine(outs, db) &&
    (n == 0 ||
     (&& Checks(outs, db, steps, n - 1) && Brings(outs, steps[n - 1])
      && var (u, v) := Shown(outs, db, steps, n - 1);
      Goes(db, u, v, steps[n - 1])))
  }

  /** The unspent set and the view after the first n blocks: the view shows the set and has an
      entry, marked modified, for exactly the outputs these blocks create or spend. */
  ghost function Shown(outs: Outs, db: Coins, steps: seq<ReorgViews.Step>, n: nat): (r: (Coins, Entries))
    requires n <= |steps| && Checks(outs, db, steps, n)
    ensures Tracks(outs, db, r.0, r.1, Touched(steps, n))
    decreases n, 1
  {
    if n == 0 then
      (db, map[])
    else
      var (u, v) := Shown(outs, db, steps, n - 1);
      StepTracks(outs, db, u, v, steps[n - 1], Touched(steps, n - 1));
      (CoinsAfter(u, steps[n - 1]), ViewAfter(db, u, v, steps[n - 1]))
  }

  // ----- the tally

  /** The weight looks at amount and script only. */
  ghost predicate Blind(w: Weight) { forall c, d :: Same(c, d) ==> w(c) == w(d) }

  function Voice(outs: Outs, w: Weight): OutPoint -> int { o => w(outs(o)) }

  /** Touched outputs that are unspent neither before nor after, and those that are both. */
  function Neither(touched: set<OutPoint>, db: Coins, u: Coins): set<OutPoint> {
    set o | o in touched && o !in db && o !in u
  }

  function Twice(touched: set<OutPoint>, db: Coins, u: Coins): set<OutPoint> {
    set o | o in touched && o in db && o in u
  }

  function Within(s: set<OutPoint>, f: OutPoint -> int): OutPoint -> int { o => if o in s then f(o) else 0 }

  function Minus(f: OutPoint -> int): OutPoint -> int { o => -f(o) }

  lemma SumWithin(s: set<OutPoint>, all: set<OutPoint>, f: OutPoint -> int)
    requires s <= all
    ensures SumOver(all, Within(s, f)) == SumOver(s, f)
  {
    SumWiden(s, all, Within(s, f));
    SumSame(s, Within(s, f), f);
  }

  lemma {:induction false} SumMinus(s: set<OutPoint>, f: OutPoint -> int)
    ensures SumOver(s, Minus(f)) == -SumOver(s, f)
    decreases s
  {
    if x :| x in s {
      SumSplit(s, x, f);
      SumSplit(s, x, Minus(f));
      SumMinus(s - {x}, f);
    }
  }

  /** What the changes of such a view add up to. */
  lemma CheckedBalance(outs: Outs, w: Weight, db: Coins, u: Coins, v: Entries, touched: set<OutPoint>)
    requires Tracks(outs, db, u, v, touched) && Genuine(outs, db) && Blind(w)
    ensures Total(w, db) + Delta(w, v) ==
            Total(w, u) + SumOver(Twice(touched, db, u), Voice(outs, w))
            - SumOver(Neither(touched, db, u), Voice(outs, w))
  {
    var all := touched + db.Keys + u.Keys;
    var voice, never, both := Voice(outs, w), Neither(touched, db, u), Twice(touched, db, u);
    WidenTotal(w, u, all);
    WidenTotal(w, db, all);
    SumWiden(v.Keys, all, ChangeWorth(w, v));
    SumWithin(never, all, voice);
    SumWithin(both, all, voice);
    SumMinus(all, Within(never, voice));
    forall o | o in all
      ensures ChangeWorth(w, v)(o) == StoredWorth(w, u)(o) + Within(both, voice)(o) + Minus(Within(never, voice))(o)
                                      - StoredWorth(w, db)(o)
    {
      BalancesAt(outs, w, db, u, v, touched, o);
    }
    SumLinear(all, ChangeWorth(w, v), StoredWorth(w, u), Within(both, voice), Minus(Within(never, voice)),
              StoredWorth(w, db));
  }

  lemma BalancesAt(outs: Outs, w: Weight, db: Coins, u: Coins, v: Entries, touched: set<OutPoint>, o: OutPoint)
    requires Tracks(outs, db, u, v, touched) && Genuine(outs, db) && Blind(w)
    ensures Change(w, v, o) == Worth(w, Get(u, o)) - Worth(w, Get(db, o))
                               + (if o in Twice(touched, db, u) then w(outs(o)) else 0)
                               - (if o in Neither(touched, db, u) then w(outs(o)) else 0)
  {
    assert LookAt(db, v, o) == Get(u, o);
    if o in db { assert w(outs(o)) == w(db[o]); }
    if o in v { assert w(outs(o)) == w(v[o].value.coin); }
  }

  /** The disapproval computed when the n-th block is checked is off by the opposition that these
      blocks touch and that is unspent both before and after, less the opposition they touch that
      is unspent neither before nor after. */
  lemma CheckedTallyIff(outs: Outs, votes: Votes, tip: ElectionState, db: Coins, steps: seq<ReorgViews.Step>, n: nat)
    requires n <= |steps| && Checks(outs, db, steps, n) && Exact(votes, tip, db)
    ensures var (u, v) := Shown(outs, db, steps, n);
            var w, touched := Opposing(votes, tip.steward), Touched(steps, n);
            var both, never := SumOver(Twice(touched, db, u), Voice(outs, w)),
                               SumOver(Neither(touched, db, u), Voice(outs, w));
            && Kept(votes, tip, v) == Total(w, u) + both - never
            && (Kept(votes, tip, v) == Total(w, u) <==> both == never)
  {
    var (u, v) := Shown(outs, db, steps, n);
    assert Genuine(outs, db);
    hide Shown, Checks, Tracks, Genuine, Total, Delta, Touched, Twice, Neither;
    CheckedBalance(outs, Opposing(votes, tip.steward), db, u, v, Touched(steps, n));
  }
}
