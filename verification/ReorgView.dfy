/** One view carried through a whole reorganization: what its entries are marked with at
    every block, in terms of the blocks alone. */
module ReorgViews {
  import opened Options
  import opened Ledger
  import opened UtxoViews

  /** One block detached or attached.  `loaded` is the view after its inputs were fetched,
      `before` the unspent set without the detached block. */
  datatype Step =
    | Attach(b: Block, height: nat, loaded: Entries)
    | Detach(b: Block, height: nat, loaded: Entries, before: Coins)

  function IdsOf(b: Block): set<Hash> { Ids(Transactions(b)) }

  ghost predicate Possible(db: Coins, v: Entries, s: Step) {
    && Fetched(db, v, s.loaded, s.b, s.height)
    && match s
       case Attach(b, height, _) => CanConnect(db, b, height) && FreshIds(db, b)
       case Detach(b, height, _, before) =>
         CanConnect(before, b, height) && FreshIds(before, b) && db == Connect(before, b, height)
  }

  /** The unspent set after the step. */
  function CoinsAfter(db: Coins, s: Step): Coins {
    match s
    case Attach(b, height, _) => Connect(db, b, height)
    case Detach(_, _, _, before) => before
  }

  /** The view after the step's block went through it, before it is committed. */
  ghost function Changed(db: Coins, v: Entries, s: Step): Entries
    requires Settled(db, v) && Possible(db, v, s)
  {
    match s
    case Attach(b, height, loaded) =>
      ViewConnects(db, v, loaded, b, height);
      ConnectedBlock(loaded, b, height).value.entries
    case Detach(b, height, loaded, before) =>
      DisconnectedBlock(loaded, b, height, JournalEntry(before, b, height))
  }

  /** What is written is the unspent set after the step, and the committed view repeats it. */
  lemma StepSettles(db: Coins, v: Entries, s: Step, written: Coins)
    requires Settled(db, v) && Possible(db, v, s)
    requires var x := Changed(db, v, s); IsPut(db, x, x.Keys, written)
    ensures written == CoinsAfter(db, s) && Settled(written, Committed(Changed(db, v, s)))
  {
    hide IsPut, Settled, Fetched, ConnectedBlock, DisconnectedBlock, CanConnect, FreshIds, Connect;
    match s
    case Attach(b, height, loaded) =>
      ViewConnects(db, v, loaded, b, height);
      ConnectThroughView(db, v, loaded, b, height, Changed(db, v, s), written);
    case Detach(b, height, loaded, before) =>
      DisconnectThroughView(before, db, v, loaded, b, height, Changed(db, v, s), written);
  }

  // ----- outputs a block does not create

  lemma {:induction false} SpentIsGone(u: Coins, inputs: seq<OutPoint>, o: OutPoint)
    requires o !in u || o in inputs
    ensures o !in Spend(u, inputs)
  {
    if inputs != [] { SpentIsGone(u - {inputs[0]}, inputs[1..], o); }
  }

  /** An output of none of the transactions is gone once it is spent, and does not appear
      when it was not there. */
  lemma {:induction false} ForeignIsGone(u: Coins, txs: seq<Tx>, height: nat, o: OutPoint)
    requires o !in CreatedKeys(txs) && (o !in u || Spends(txs, o))
    ensures o !in ConnectTxs(u, txs, height)
    decreases txs
  {
    if txs != [] {
      SameKeys(txs[0], 0, height, false, false);
      if o !in u || o in txs[0].inputs { SpentIsGone(u, txs[0].inputs, o); }
      if Spends(txs, o) && o !in txs[0].inputs { SpendsLater(txs, o); }
      ForeignIsGone(ConnectTx(u, txs[0], height), txs[1..], height, o);
    }
  }

  lemma SpendsLater(txs: seq<Tx>, o: OutPoint)
    requires Spends(txs, o) && o !in txs[0].inputs
    ensures Spends(txs[1..], o)
  {
    var i :| 0 <= i < |txs| && o in txs[i].inputs;
    assert txs[1..][i - 1] == txs[i];
  }

  lemma {:induction false} CanSpendOnlyStored(u: Coins, inputs: seq<OutPoint>, o: OutPoint)
    requires CanSpend(u, inputs) && o in inputs
    ensures o in u
  {
    if o != inputs[0] { CanSpendOnlyStored(u - {inputs[0]}, inputs[1..], o); }
  }

  /** A spent output of none of the transactions was stored before them. */
  lemma {:induction false} ForeignWasStored(u: Coins, txs: seq<Tx>, height: nat, o: OutPoint)
    requires CanConnectTxs(u, txs, height) && o !in CreatedKeys(txs) && Spends(txs, o)
    ensures o in u
    decreases txs
  {
    SameKeys(txs[0], 0, height, false, false);
    if o in txs[0].inputs {
      CanSpendOnlyStored(u, txs[0].inputs, o);
    } else {
      SpendsLater(txs, o);
      ForeignWasStored(ConnectTx(u, txs[0], height), txs[1..], height, o);
      if o !in u { SpentIsGone(u, txs[0].inputs, o); }
    }
  }

  lemma ForeignToBlock(u: Coins, b: Block, height: nat, o: OutPoint)
    requires o !in CreatedKeys(Transactions(b))
    ensures o !in u || Spends(b.txs, o) ==> o !in Connect(u, b, height)
    ensures CanConnect(u, b, height) && Spends(b.txs, o) ==> o in u
  {
    assert Transactions(b)[1..] == b.txs;
    SameKeys(b.coinbase, 0, height, false, true);
    hide Spends, ConnectTxs, CanConnectTxs;
    var w := u + Created(b.coinbase, height, true);
    if o !in u || Spends(b.txs, o) { ForeignIsGone(w, b.txs, height, o); }
    if CanConnect(u, b, height) && Spends(b.txs, o) { ForeignWasStored(w, b.txs, height, o); }
  }

  // ----- entries a block does not create

  /** An entry is left as it is or marked spent. */
  predicate Evolved(v: Entries, w: Entries, o: OutPoint) {
    && (o in v <==> o in w)
    && (o in v ==> w[o] == v[o] || (v[o].Some? && w[o] == Some(v[o].value.Spend())))
  }

  lemma {:induction false} SpendInputsEvolve(v: Entries, inputs: seq<OutPoint>, stxos: seq<Coin>, o: OutPoint)
    ensures var r := SpendInputs(v, inputs, stxos); r.Some? ==> Evolved(v, r.value.entries, o)
    decreases inputs
  {
    if inputs != [] && inputs[0] in v && v[inputs[0]].Some? {
      var e := v[inputs[0]].value;
      SpendInputsEvolve(v[inputs[0] := Some(e.Spend())], inputs[1..], stxos + [e.coin], o);
    }
  }

  /** The outputs a list of transactions creates, and those of a block. */
  function CreatedByTxs(txs: seq<Tx>, height: nat): Coins {
    if txs == [] then map[] else Created(txs[0], height, false) + CreatedByTxs(txs[1..], height)
  }

  function CreatedByBlock(b: Block, height: nat): Coins {
    Created(b.coinbase, height, true) + CreatedByTxs(b.txs, height)
  }

  lemma {:induction false} TxsCreateKeys(txs: seq<Tx>, height: nat)
    ensures CreatedByTxs(txs, height).Keys == CreatedKeys(txs)
  {
    if txs != [] {
      TxsCreateKeys(txs[1..], height);
      SameKeys(txs[0], 0, height, false, false);
    }
  }

  lemma BlockCreatesKeys(b: Block, height: nat)
    ensures CreatedByBlock(b, height).Keys == CreatedKeys(Transactions(b))
    ensures forall o :: o in CreatedByBlock(b, height) ==> o.txid in IdsOf(b)
  {
    assert Transactions(b)[1..] == b.txs;
    TxsCreateKeys(b.txs, height);
    SameKeys(b.coinbase, 0, height, false, true);
    CreatedHaveIds(Transactions(b));
  }

  /** After connecting, a created output has an entry with its coin; any other entry is as
      before or marked spent. */
  predicate Connects(v: Entries, w: Entries, created: Coins, o: OutPoint) {
    if o in created then o in w && w[o].Some? && w[o].value.modified && w[o].value.coin == created[o]
    else Evolved(v, w, o)
  }

  lemma {:induction false} TxsConnect(v: Entries, txs: seq<Tx>, height: nat, stxos: seq<Coin>, o: OutPoint)
    requires DistinctIds(txs)
    ensures var r := ConnectedTxs(v, txs, height, stxos);
            r.Some? ==> Connects(v, r.value.entries, CreatedByTxs(txs, height), o)
    decreases txs
  {
    if txs != [] {
      SpendInputsEvolve(v, txs[0].inputs, stxos, o);
      match SpendInputs(v, txs[0].inputs, stxos)
      case None =>
      case Some(c) =>
        TxsConnect(Added(c.entries, txs[0], height, false), txs[1..], height, c.stxos, o);
        TxsCreateKeys(txs[1..], height);
        CreatedHaveIds(txs[1..]);
    }
  }

  lemma BlockConnects(v: Entries, b: Block, height: nat, o: OutPoint)
    requires DistinctIds(Transactions(b))
    ensures var r := ConnectedBlock(v, b, height);
            r.Some? ==> Connects(v, r.value.entries, CreatedByBlock(b, height), o)
  {
    assert Transactions(b)[1..] == b.txs;
    TxsConnect(Added(v, b.coinbase, height, true), b.txs, height, [], o);
    TxsCreateKeys(b.txs, height);
    CreatedHaveIds(b.txs);
  }

  /** Undoing transactions restores what they spent and touches nothing else, as far as
      outputs of other transactions go. */
  predicate Undone(v: Entries, w: Entries, txs: seq<Tx>, o: OutPoint) {
    if Spends(txs, o) then o in w && w[o].Some? && !w[o].value.spent && w[o].value.modified
    else (o in w <==> o in v) && (o in v ==> w[o] == v[o])
  }

  lemma {:induction false} RestoredAt(v: Entries, inputs: seq<OutPoint>, coins: seq<Coin>, o: OutPoint)
    requires |coins| == |inputs|
    ensures var w := Restored(v, inputs, coins);
            if o in inputs then o in w && w[o].Some? && !w[o].value.spent && w[o].value.modified
            else (o in w <==> o in v) && (o in v ==> w[o] == v[o])
  {
    if inputs != [] { RestoredAt(v, inputs[1..], coins[1..], o); }
  }

  lemma {:induction false} TxsUndone(v: Entries, txs: seq<Tx>, height: nat, coins: seq<Coin>, o: OutPoint)
    requires |coins| == CountInputs(txs) && o !in CreatedKeys(txs)
    ensures Undone(v, DisconnectedTxs(v, txs, height, coins), txs, o)
  {
    if txs != [] {
      var k := |txs[0].inputs|;
      var w := DisconnectedTxs(v, txs[1..], height, coins[k..]);
      TxsUndone(v, txs[1..], height, coins[k..], o);
      SameKeys(txs[0], 0, height, false, false);
      RestoredAt(Removed(w, txs[0], height, false), txs[0].inputs, coins[..k], o);
      SpendsSplit(txs, o);
    }
  }

  lemma SpendsSplit(txs: seq<Tx>, o: OutPoint)
    requires txs != []
    ensures Spends(txs, o) <==> o in txs[0].inputs || Spends(txs[1..], o)
  {
    if Spends(txs, o) && o !in txs[0].inputs { SpendsLater(txs, o); }
    if Spends(txs[1..], o) {
      var i :| 0 <= i < |txs[1..]| && o in txs[1..][i].inputs;
      assert txs[i + 1] == txs[1..][i];
    }
  }

  lemma BlockUndone(v: Entries, b: Block, height: nat, coins: seq<Coin>, o: OutPoint)
    requires |coins| == CountInputs(b.txs) && o !in CreatedKeys(Transactions(b))
    ensures Undone(v, DisconnectedBlock(v, b, height, coins), b.txs, o)
  {
    assert Transactions(b)[1..] == b.txs;
    SameKeys(b.coinbase, 0, height, false, true);
    hide Spends;
    TxsUndone(v, b.txs, height, coins, o);
  }

  lemma Uncreated(b: Block, o: OutPoint)
    requires o.txid !in IdsOf(b)
    ensures o !in CreatedKeys(Transactions(b))
  {
    CreatedHaveIds(Transactions(b));
  }

  // ----- the age of an entry

  /** The step gives o a new entry: its block creates o, or it takes back a block that spent o. */
  predicate Writes(s: Step, o: OutPoint) {
    match s
    case Attach(b, _, _) => o.txid in IdsOf(b)
    case Detach(b, _, _, _) => o.txid !in IdsOf(b) && Spends(b.txs, o)
  }

  /** The last of the first n steps that wrote o. */
  function Writer(steps: seq<Step>, n: nat, o: OutPoint): (r: Option<nat>)
    requires n <= |steps|
    ensures r.Some? ==> r.value < n && Writes(steps[r.value], o)
    ensures forall t :: (if r.Some? then r.value < t else 0 <= t) && t < n ==> !Writes(steps[t], o)
  {
    if n == 0 then None
    else if Writes(steps[n - 1], o) then Some(n - 1)
    else Writer(steps, n - 1, o)
  }

  /** o was written an even number of steps ago. */
  predicate Even(steps: seq<Step>, n: nat, o: OutPoint)
    requires n <= |steps|
  {
    var t := Writer(steps, n, o);
    t.Some? && (n - t.value) % 2 == 0
  }

  /** The view holds exactly the stored outputs that some step wrote, each as it is stored and
      marked modified exactly when it was written an even number of steps ago. */
  ghost predicate Aged(steps: seq<Step>, n: nat, db: Coins, v: Entries)
    requires n <= |steps|
  {
    forall o :: AgedAt(steps, n, db, v, o)
  }

  predicate AgedAt(steps: seq<Step>, n: nat, db: Coins, v: Entries, o: OutPoint)
    requires n <= |steps|
  {
    if o in db && Writer(steps, n, o).Some? then o in v && v[o] == Some(Entry(db[o], false, Even(steps, n, o)))
    else o !in v
  }

  lemma AgedSettles(steps: seq<Step>, n: nat, db: Coins, v: Entries)
    requires n <= |steps| && Aged(steps, n, db, v)
    ensures Settled(db, v)
  {
    hide Writer, Even;
    forall o | o in v ensures v[o].Some? && !v[o].value.spent && o in db && db[o] == v[o].value.coin {
      assert AgedAt(steps, n, db, v, o);
    }
  }

  /** Loading for a block: an entry of an output the block does not create is an earlier one,
      or repeats a stored output that the block spends. */
  lemma LoadedForeign(db: Coins, v: Entries, s: Step, o: OutPoint)
    requires Fetched(db, v, s.loaded, s.b, s.height) && o !in CreatedKeys(Transactions(s.b))
    ensures o in v ==> o in s.loaded
    ensures o in s.loaded ==>
              (o in v && s.loaded[o] == v[o]) || (o !in v && s.loaded[o] == Stored(db, o) && Spends(s.b.txs, o))
  {
    if o in s.loaded && IsNewOutput(s.b, s.height, o, s.loaded[o]) {
      NewOutputKeys(s.b, s.height, o, s.loaded[o]);
    }
  }

  /** What an attached block leaves at o: the entry shows the connected set and is regular; if
      the block does not create o, it comes from the view or from a stored output it spends. */
  lemma AttachedEntry(db: Coins, v: Entries, s: Step, o: OutPoint)
    requires s.Attach? && Settled(db, v) && Possible(db, v, s)
    ensures var x, u := Changed(db, v, s), CoinsAfter(db, s);
            && LookAt(db, x, o) == Get(u, o) && RegularAt(db, x, o)
            && (o.txid in IdsOf(s.b) ==> o !in db)
            && (o.txid !in IdsOf(s.b) ==> ForeignEntry(db, v, x, u, o))
  {
    ViewConnects(db, v, s.loaded, s.b, s.height);
    var x, u := Changed(db, v, s), CoinsAfter(db, s);
    assert LookAt(db, x, o) == Get(u, o) && RegularAt(db, x, o);
    hide Fetched, ConnectedBlock, CanConnect, Connect, Shows, Settled, Spends, Changed, Regular, RegularAt, LookAt;
    if o.txid !in IdsOf(s.b) {
      Uncreated(s.b, o);
      LoadedForeign(db, v, s, o);
      BlockCreatesKeys(s.b, s.height);
      BlockConnects(s.loaded, s.b, s.height, o);
      ForeignToBlock(db, s.b, s.height, o);
    }
  }

  predicate RegularAt(db: Coins, v: Entries, o: OutPoint) {
    o in v && v[o].Some? ==> (o !in db ==> v[o].value.modified) && (v[o].value.spent ==> v[o].value.modified)
  }

  predicate ForeignEntry(db: Coins, v: Entries, x: Entries, u: Coins, o: OutPoint) {
    && (o in v ==> o in x && (x[o] == v[o] || (v[o].Some? && x[o] == Some(v[o].value.Spend()))))
    && (o in x && o !in v ==> o !in u && (o in db || x[o].None?))
    && (o !in db ==> o !in u)
  }

  /** One entry of an attached block's view. */
  lemma AttachAt(steps: seq<Step>, n: nat, db: Coins, v: Entries, o: OutPoint)
    requires n < |steps| && steps[n].Attach? && Aged(steps, n, db, v) && Settled(db, v) && Possible(db, v, steps[n])
    ensures var x, u := Changed(db, v, steps[n]), CoinsAfter(db, steps[n]);
            && AgedAt(steps, n + 1, u, Committed(x), o)
            && (CountsAgain(db, x, o) <==> o in db && o in u && Even(steps, n, o))
  {
    hide Possible, Changed, CoinsAfter, Settled, IdsOf;
    AttachedEntry(db, v, steps[n], o);
    assert AgedAt(steps, n, db, v, o);
    var x, u := Changed(db, v, steps[n]), CoinsAfter(db, steps[n]);
    WriterNext(steps, n, o);
    assert Writes(steps[n], o) <==> o.txid in IdsOf(steps[n].b);
    hide Writer, Writes, Even, Aged;
  }

  /** The entry of a stored output is counted once more. */
  predicate CountsAgain(db: Coins, x: Entries, o: OutPoint) {
    o in db && o in x && x[o].Some? && x[o].value.modified && !x[o].value.spent
  }

  lemma WriterNext(steps: seq<Step>, n: nat, o: OutPoint)
    requires n < |steps|
    ensures Writes(steps[n], o) ==> Writer(steps, n + 1, o).Some? && !Even(steps, n + 1, o)
    ensures !Writes(steps[n], o) ==> Writer(steps, n + 1, o) == Writer(steps, n, o)
    ensures !Writes(steps[n], o) && Writer(steps, n, o).Some? ==> (Even(steps, n + 1, o) <==> !Even(steps, n, o))
  {
    hide Writes;
  }

  /** What a detached block leaves at o. */
  lemma DetachedEntry(db: Coins, v: Entries, s: Step, o: OutPoint)
    requires s.Detach? && Settled(db, v) && Possible(db, v, s)
    ensures var x, u := Changed(db, v, s), s.before;
            && LookAt(db, x, o) == Get(u, o) && (o in x && x[o].Some? && x[o].value.spent ==> x[o].value.modified)
            && (o.txid in IdsOf(s.b) ==> o !in u)
            && (o.txid !in IdsOf(s.b) && Spends(s.b.txs, o) ==>
                  o in x && x[o].Some? && !x[o].value.spent && x[o].value.modified)
            && (o.txid !in IdsOf(s.b) && !Spends(s.b.txs, o) ==> (o in x <==> o in v) && (o in v ==> x[o] == v[o]))
  {
    var x, u, coins := Changed(db, v, s), s.before, JournalEntry(s.before, s.b, s.height);
    ViewDisconnects(db, v, s.loaded, s.b, s.height, coins);
    DisconnectUndoesConnect(u, s.b, s.height);
    assert LookAt(db, x, o) == Get(u, o);
    assert o in x && x[o].Some? && x[o].value.spent ==> x[o].value.modified;
    hide Fetched, DisconnectedBlock, CanConnect, Connect, Disconnect, Shows, Settled, Spends, Changed, LookAt, Cached;
    if o.txid !in IdsOf(s.b) {
      Uncreated(s.b, o);
      LoadedForeign(db, v, s, o);
      BlockUndone(s.loaded, s.b, s.height, coins, o);
    }
  }

  /** One entry of a detached block's view. */
  lemma DetachAt(steps: seq<Step>, n: nat, db: Coins, v: Entries, o: OutPoint)
    requires n < |steps| && steps[n].Detach? && Aged(steps, n, db, v) && Settled(db, v) && Possible(db, v, steps[n])
    ensures AgedAt(steps, n + 1, CoinsAfter(db, steps[n]), Committed(Changed(db, v, steps[n])), o)
  {
    hide Possible, Changed, Settled, IdsOf, Spends;
    DetachedEntry(db, v, steps[n], o);
    assert AgedAt(steps, n, db, v, o);
    WriterNext(steps, n, o);
    var s := steps[n];
    assert Writes(s, o) <==> o.txid !in IdsOf(s.b) && Spends(s.b.txs, o);
    hide Writer, Writes, Even, Aged;
  }

  // ----- a whole reorganization

  /** The first n steps can be taken one after the other, through one view that starts out
      empty. */
  ghost predicate Proceeds(db: Coins, steps: seq<Step>, n: nat)
    requires n <= |steps|
    decreases n, 0
  {
    n == 0 || (Proceeds(db, steps, n - 1) && var (u, v) := At(db, steps, n - 1); Possible(u, v, steps[n - 1]))
  }

  /** The stored set and the view after the first n steps. */
  ghost function At(db: Coins, steps: seq<Step>, n: nat): (r: (Coins, Entries))
    requires n <= |steps| && Proceeds(db, steps, n)
    ensures Aged(steps, n, r.0, r.1) && Settled(r.0, r.1)
    decreases n, 1
  {
    if n == 0 then
      (db, map[])
    else
      var (u, v) := At(db, steps, n - 1);
      StepAges(steps, n - 1, u, v);
      (CoinsAfter(u, steps[n - 1]), Committed(Changed(u, v, steps[n - 1])))
  }

  lemma StepAges(steps: seq<Step>, n: nat, db: Coins, v: Entries)
    requires n < |steps| && Aged(steps, n, db, v) && Settled(db, v) && Possible(db, v, steps[n])
    ensures var u, w := CoinsAfter(db, steps[n]), Committed(Changed(db, v, steps[n]));
            Aged(steps, n + 1, u, w) && Settled(u, w)
  {
    hide AgedAt, Settled, Possible, Changed, CoinsAfter;
    var m, u, w := n + 1, CoinsAfter(db, steps[n]), Committed(Changed(db, v, steps[n]));
    forall o ensures AgedAt(steps, m, u, w, o) {
      if steps[n].Attach? { AttachAt(steps, n, db, v, o); } else { DetachAt(steps, n, db, v, o); }
    }
    AgedSettles(steps, m, u, w);
  }

  // ----- created and spent in passing

  /** The outputs that a block creates and spends itself. */
  function Passing(db: Coins, b: Block, height: nat): Coins {
    CreatedByBlock(b, height) - Connect(db, b, height).Keys
  }

  /** The entry is of an output that was never stored and is marked spent. */
  predicate IsTransient(db: Coins, x: Entries, o: OutPoint) {
    o in x && o !in db && x[o].Some? && x[o].value.modified && x[o].value.spent
  }

  /** These are the entries of the attached block's view that were never stored and are spent. */
  lemma PassingAt(db: Coins, v: Entries, s: Step, o: OutPoint)
    requires s.Attach? && Settled(db, v) && Possible(db, v, s)
    ensures var x, passing := Changed(db, v, s), Passing(db, s.b, s.height);
            && (IsTransient(db, x, o) <==> o in passing)
            && (IsTransient(db, x, o) ==> x[o].value.coin == passing[o])
  {
    AttachedEntry(db, v, s, o);
    BlockCreatesKeys(s.b, s.height);
    assert o in v && v[o].Some? ==> o in db;
    if o.txid in IdsOf(s.b) { CreatedEntry(db, v, s, o); }
    hide Settled, Possible, Changed, Connect, CreatedByBlock, IdsOf, CreatedKeys;
  }

  /** An output with the id of one of the block's transactions has an entry exactly when the
      block creates it. */
  lemma CreatedEntry(db: Coins, v: Entries, s: Step, o: OutPoint)
    requires s.Attach? && Settled(db, v) && Possible(db, v, s) && o.txid in IdsOf(s.b)
    ensures var x, created := Changed(db, v, s), CreatedByBlock(s.b, s.height);
            if o in created then o in x && x[o].Some? && x[o].value.coin == created[o] else o in x ==> x[o].None?
  {
    ViewConnects(db, v, s.loaded, s.b, s.height);
    assert o !in db && (o in v ==> v[o].None?);
    BlockConnects(s.loaded, s.b, s.height, o);
    BlockCreatesKeys(s.b, s.height);
    if o in s.loaded && IsNewOutput(s.b, s.height, o, s.loaded[o]) {
      NewOutputKeys(s.b, s.height, o, s.loaded[o]);
    }
    hide IsNewOutput, ConnectedBlock, CanConnect, Connect, Shows, CreatedByBlock, Regular, Settled, Ids, CreatedKeys,
         Spends;
  }
}
