/** The view through which blocks are connected to and disconnected from the unspent set:
    entries loaded from the set, changed in memory, written back, and kept for the next
    block.  The view is shown to have exactly the effect the ledger asks for. */
module UtxoViews {
  import opened Options
  import opened Ledger

  datatype Entry = Entry(coin: Coin, spent: bool, modified: bool) {
    function Spend(): Entry { if spent then this else Entry(coin, true, true) }
  }

  /** An absent value stands for the nil entry of an output that was looked up in vain. */
  type Entries = map<OutPoint, Option<Entry>>

  function Get(u: Coins, o: OutPoint): Option<Coin> { if o in u then Some(u[o]) else None }

  lemma SameCoins(a: Coins, b: Coins)
    requires forall o :: Get(a, o) == Get(b, o)
    ensures a == b
  {
    forall o ensures o in a <==> o in b
             ensures o in a ==> a[o] == b[o]
    {
      assert Get(a, o) == Get(b, o);
    }
  }

  /** What the view says about an output: its own entry if it has one, else what is stored. */
  function LookAt(db: Coins, v: Entries, o: OutPoint): Option<Coin> {
    if o !in v then Get(db, o)
    else if v[o].None? || v[o].value.spent then None
    else Some(v[o].value.coin)
  }

  /** The view answers like the unspent set u, except perhaps on the outputs in `pending`. */
  ghost predicate Shows(db: Coins, v: Entries, u: Coins, pending: set<OutPoint>) {
    forall o :: o !in pending ==> LookAt(db, v, o) == Get(u, o)
  }

  /** Entries that are not marked modified repeat what is stored. */
  predicate Cached(db: Coins, v: Entries) {
    forall o :: o in v ==>
      if v[o].None? then o !in db
      else v[o].value.modified || (!v[o].value.spent && o in db && db[o] == v[o].value.coin)
  }

  /** Every entry, modified or not, repeats what is stored. */
  predicate Settled(db: Coins, v: Entries) {
    forall o :: o in v ==>
      if v[o].None? then o !in db else !v[o].value.spent && o in db && db[o] == v[o].value.coin
  }

  // ----- writing back and committing

  /** One entry written to the unspent set. */
  function PutEntry(db: Coins, o: OutPoint, e: Option<Entry>): Coins {
    if e.None? || !e.value.modified then db
    else if e.value.spent then db - {o}
    else db[o := e.value.coin]
  }

  /** Entry-wise description of the unspent set after the whole view is written. */
  ghost predicate IsPut(db: Coins, v: Entries, keys: set<OutPoint>, u: Coins) {
    forall o :: Get(u, o) == if o in v && o in keys then Get(PutEntry(db, o, v[o]), o) else Get(db, o)
  }

  /** Writes the modified entries to the unspent set. */
  method PutUtxoView(db: Coins, v: Entries) returns (u: Coins)
    ensures IsPut(db, v, v.Keys, u)
    ensures forall o :: o in v && v[o].Some? && v[o].value.modified ==>
              Get(u, o) == if v[o].value.spent then None else Some(v[o].value.coin)
    ensures forall o :: !(o in v && v[o].Some? && v[o].value.modified) ==> Get(u, o) == Get(db, o)
  {
    u := db;
    var todo := v.Keys;
    while todo != {}
      invariant todo <= v.Keys
      invariant IsPut(db, v, v.Keys - todo, u)
      decreases todo
    {
      var o :| o in todo;
      ghost var before := u;
      u := PutEntry(u, o, v[o]);
      assert Get(before, o) == Get(db, o);
      todo := todo - {o};
    }
  }

  /** What is written is what the view shows. */
  lemma WritesWhatItShows(db: Coins, v: Entries, written: Coins, u: Coins)
    requires Cached(db, v) && Shows(db, v, u, {}) && IsPut(db, v, v.Keys, written)
    ensures written == u
  {
    forall o ensures Get(written, o) == Get(u, o) {
      assert LookAt(db, v, o) == Get(u, o);
    }
    SameCoins(written, u);
  }

  predicate Pruned(e: Option<Entry>) { e.None? || (e.value.modified && e.value.spent) }

  function Toggled(e: Entry): Entry { e.(modified := !e.modified) }

  /** Drops nil and spent entries and flips the modified flag of all others. */
  function Committed(v: Entries): Entries {
    map o | o in v && !Pruned(v[o]) :: Some(Toggled(v[o].value))
  }

  /** Committing keeps every entry but the nil ones and the modified spent ones, and turns the flag
      of what it keeps; an entry that is spent already is not marked by spending it again. */
  lemma CommittedAt(v: Entries, o: OutPoint, e: Entry)
    requires o in v && v[o] == Some(e)
    ensures o in Committed(v) <==> !e.modified || !e.spent
    ensures o in Committed(v) ==> Committed(v)[o] == Some(Entry(e.coin, e.spent, !e.modified))
    ensures e.Spend() == if e.spent then e else Entry(e.coin, true, true)
  {
  }

  /** After a view has been written and committed, each entry repeats what is now stored. */
  lemma CommitSettles(db: Coins, v: Entries, u: Coins)
    requires Cached(db, v) && IsPut(db, v, v.Keys, u)
    ensures Settled(u, Committed(v))
  {
    forall o | o in Committed(v)
      ensures !v[o].value.spent && o in u && u[o] == v[o].value.coin
    {
      assert Get(u, o) == Get(PutEntry(db, o, v[o]), o);
    }
  }

  /** The flip is documented as clearing the flag.  It does so exactly when every entry that
      stays was modified. */
  lemma CommitClearsIff(v: Entries)
    ensures (forall o :: o in Committed(v) ==> !Committed(v)[o].value.modified)
       <==> (forall o :: o in v && !Pruned(v[o]) ==> v[o].value.modified)
  {
    if forall o :: o in Committed(v) ==> !Committed(v)[o].value.modified {
      forall o | o in v && !Pruned(v[o]) ensures v[o].value.modified {
        assert o in Committed(v);
      }
    }
  }

  /** An unmodified entry that a block leaves alone comes out of a commit marked modified. */
  lemma CommitMarksUntouched(o: OutPoint, c: Coin)
    ensures Committed(map[o := Some(Entry(c, false, false))]) == map[o := Some(Entry(c, false, true))]
  {
  }

  // ----- one transaction

  /** The outputs of a transaction as fresh, modified entries. */
  function Added(v: Entries, tx: Tx, height: nat, isCoinBase: bool): Entries {
    AddedAll(v, Created(tx, height, isCoinBase))
  }

  function AddedAll(v: Entries, created: Coins): Entries {
    v + map o | o in created :: Some(Entry(created[o], false, true))
  }

  lemma AddedNothing(v: Entries, tx: Tx, height: nat, isCoinBase: bool)
    requires tx.outputs == []
    ensures Added(v, tx, height, isCoinBase) == v && Removed(v, tx, height, isCoinBase) == v
  {
  }

  datatype Connected = Connected(entries: Entries, stxos: seq<Coin>)

  /** Marks the inputs spent in order; fails on one the view has no entry for. */
  function SpendInputs(v: Entries, inputs: seq<OutPoint>, stxos: seq<Coin>): Option<Connected>
    decreases inputs
  {
    if inputs == [] then Some(Connected(v, stxos))
    else if inputs[0] !in v || v[inputs[0]].None? then None
    else
      var e := v[inputs[0]].value;
      SpendInputs(v[inputs[0] := Some(e.Spend())], inputs[1..], stxos + [e.coin])
  }

  function ConnectedTxs(v: Entries, txs: seq<Tx>, height: nat, stxos: seq<Coin>): Option<Connected>
    decreases txs
  {
    if txs == [] then Some(Connected(v, stxos)) else
      match SpendInputs(v, txs[0].inputs, stxos)
      case None => None
      case Some(c) => ConnectedTxs(Added(c.entries, txs[0], height, false), txs[1..], height, c.stxos)
  }

  /** The outputs the transactions create. */
  function CreatedKeys(txs: seq<Tx>): set<OutPoint> {
    if txs == [] then {} else Created(txs[0], 0, false).Keys + CreatedKeys(txs[1..])
  }

  function Ids(txs: seq<Tx>): set<Hash> {
    if txs == [] then {} else {txs[0].id} + Ids(txs[1..])
  }

  predicate DistinctIds(txs: seq<Tx>) {
    txs == [] || (txs[0].id !in Ids(txs[1..]) && DistinctIds(txs[1..]))
  }

  lemma SameKeys(tx: Tx, h: nat, k: nat, a: bool, b: bool)
    ensures Created(tx, h, a).Keys == Created(tx, k, b).Keys
  {
    SameKeysBy(tx.id, tx.outputs, h, k, a, b);
  }

  lemma {:induction false} SameKeysBy(id: Hash, outputs: seq<TxOut>, h: nat, k: nat, a: bool, b: bool)
    ensures CreatedBy(id, outputs, h, a).Keys == CreatedBy(id, outputs, k, b).Keys
  {
    if outputs != [] { SameKeysBy(id, outputs[..|outputs| - 1], h, k, a, b); }
  }

  lemma {:induction false} CreatedHaveIds(txs: seq<Tx>)
    ensures forall o :: o in CreatedKeys(txs) ==> o.txid in Ids(txs)
  {
    if txs != [] { CreatedHaveIds(txs[1..]); }
  }

  /** Outputs the view must hold before a transaction list can be connected: those that are
      not created by the block itself. */
  ghost predicate Loaded(v: Entries, txs: seq<Tx>, ids: set<Hash>) { Covered(v.Keys, txs, ids) }

  ghost predicate Covered(keys: set<OutPoint>, txs: seq<Tx>, ids: set<Hash>) {
    forall i, o :: 0 <= i < |txs| && o in txs[i].inputs ==> o in keys || o.txid in ids
  }

  /** Spending in the view is spending in the ledger. */
  lemma {:induction false} SpendInputsShows(db: Coins, v: Entries, u: Coins, pending: set<OutPoint>,
                                            inputs: seq<OutPoint>, stxos: seq<Coin>)
    requires CanSpend(u, inputs) && Shows(db, v, u, pending) && pending !! u.Keys
    requires forall o :: o in inputs && o in u ==> o in v
    ensures var r := SpendInputs(v, inputs, stxos);
            && r.Some? && r.value.stxos == stxos + Spent(u, inputs)
            && Shows(db, r.value.entries, Spend(u, inputs), pending)
            && pending !! Spend(u, inputs).Keys && r.value.entries.Keys == v.Keys
    decreases inputs
  {
    if inputs != [] {
      var o := inputs[0];
      assert LookAt(db, v, o) == Get(u, o);
      var e := v[o].value;
      var next := v[o := Some(e.Spend())];
      assert Shows(db, next, u - {o}, pending);
      SpendInputsShows(db, next, u - {o}, pending, inputs[1..], stxos + [e.coin]);
      assert stxos + [e.coin] + Spent(u - {o}, inputs[1..]) == stxos + Spent(u, inputs);
    }
  }

  /** Adding the outputs of a transaction in the view adds them in the ledger, and settles
      the outputs that were pending for it. */
  lemma AddedShows(db: Coins, v: Entries, u: Coins, pending: set<OutPoint>, tx: Tx, height: nat, isCoinBase: bool)
    requires Shows(db, v, u, pending)
    ensures var created := Created(tx, height, isCoinBase);
            Shows(db, Added(v, tx, height, isCoinBase), u + created, pending - created.Keys)
  {
  }

  // ----- connecting a block

  predicate NoIds(db: Coins, ids: set<Hash>) { forall o :: o in db ==> o.txid !in ids }

  /** The view has an entry for every stored output with one of the ids. */
  predicate CoversIds(db: Coins, v: Entries, ids: set<Hash>) { forall o :: o in db && o.txid in ids ==> o in v }

  /** Connecting transactions in the view connects them in the ledger and records the same
      spent outputs. */
  lemma {:induction false} ConnectedTxsShows(db: Coins, v: Entries, u: Coins, txs: seq<Tx>, height: nat,
                                             stxos: seq<Coin>, ids: set<Hash>)
    requires CanConnectTxs(u, txs, height) && Shows(db, v, u, CreatedKeys(txs)) && CreatedKeys(txs) !! u.Keys
    requires DistinctIds(txs) && Ids(txs) <= ids && CoversIds(db, v, ids) && Loaded(v, txs, ids)
    ensures var r := ConnectedTxs(v, txs, height, stxos);
            && r.Some? && r.value.stxos == stxos + SpentByTxs(u, txs, height)
            && Shows(db, r.value.entries, ConnectTxs(u, txs, height), {})
    decreases txs
  {
    hide Shows, Loaded, Created, SpendInputs, CoversIds, Spend, Spent, CanSpend, Ids, ConnectTx, Added;
    if txs != [] {
      ConnectStep(db, v, u, txs, height, stxos, ids);
      var c := SpendInputs(v, txs[0].inputs, stxos).value;
      var next, w := Added(c.entries, txs[0], height, false), ConnectTx(u, txs[0], height);
      ConnectedTxsShows(db, next, w, txs[1..], height, c.stxos, ids);
      UnfoldView(v, txs, height, stxos);
      UnfoldJournal(u, txs, height, stxos);
    }
  }

  lemma UnfoldView(v: Entries, txs: seq<Tx>, height: nat, stxos: seq<Coin>)
    requires txs != [] && SpendInputs(v, txs[0].inputs, stxos).Some?
    ensures var c := SpendInputs(v, txs[0].inputs, stxos).value;
            ConnectedTxs(v, txs, height, stxos)
            == ConnectedTxs(Added(c.entries, txs[0], height, false), txs[1..], height, c.stxos)
  {
    hide SpendInputs, Added;
  }

  lemma UnfoldJournal(u: Coins, txs: seq<Tx>, height: nat, stxos: seq<Coin>)
    requires txs != [] && CanConnectTxs(u, txs, height)
    ensures stxos + Spent(u, txs[0].inputs) + SpentByTxs(ConnectTx(u, txs[0], height), txs[1..], height)
         == stxos + SpentByTxs(u, txs, height)
  {
    hide Spent, ConnectTx;
    var a, b := Spent(u, txs[0].inputs), SpentByTxs(ConnectTx(u, txs[0], height), txs[1..], height);
    assert SpentByTxs(u, txs, height) == a + b;
    assert stxos + a + b == stxos + (a + b);
  }

  /** One transaction connected, the rest can follow. */
  lemma ConnectStep(db: Coins, v: Entries, u: Coins, txs: seq<Tx>, height: nat, stxos: seq<Coin>, ids: set<Hash>)
    requires txs != [] && CanConnectTxs(u, txs, height)
    requires Shows(db, v, u, CreatedKeys(txs)) && CreatedKeys(txs) !! u.Keys
    requires DistinctIds(txs) && Ids(txs) <= ids && CoversIds(db, v, ids) && Loaded(v, txs, ids)
    ensures var r := SpendInputs(v, txs[0].inputs, stxos);
            && r.Some? && r.value.stxos == stxos + Spent(u, txs[0].inputs)
            && var next, w := Added(r.value.entries, txs[0], height, false), ConnectTx(u, txs[0], height);
            && Shows(db, next, w, CreatedKeys(txs[1..])) && CreatedKeys(txs[1..]) !! w.Keys
            && Loaded(next, txs[1..], ids) && CoversIds(db, next, ids)
    ensures DistinctIds(txs[1..]) && Ids(txs[1..]) <= ids
  {
    InputsLoaded(db, v, u, txs, ids);
    hide Shows, Loaded, Created, SpendInputs, CreatedKeys, Spend, Spent, CanSpend, ConnectTxs;
    SpendInputsShows(db, v, u, CreatedKeys(txs), txs[0].inputs, stxos);
    var c := SpendInputs(v, txs[0].inputs, stxos).value;
    NextPending(db, c.entries, Spend(u, txs[0].inputs), txs, height);
    NextLoaded(v, Added(c.entries, txs[0], height, false), txs, ids);
  }

  lemma InputsLoaded(db: Coins, v: Entries, u: Coins, txs: seq<Tx>, ids: set<Hash>)
    requires txs != [] && Shows(db, v, u, CreatedKeys(txs)) && CreatedKeys(txs) !! u.Keys
    requires CoversIds(db, v, ids) && Loaded(v, txs, ids)
    ensures forall o :: o in txs[0].inputs && o in u ==> o in v
  {
    forall o | o in txs[0].inputs && o in u ensures o in v {
      assert LookAt(db, v, o) == Get(u, o);
    }
  }

  lemma NextLoaded(v: Entries, w: Entries, txs: seq<Tx>, ids: set<Hash>)
    requires txs != [] && Loaded(v, txs, ids) && v.Keys <= w.Keys
    ensures Loaded(w, txs[1..], ids)
  {
    var rest := txs[1..];
    assert forall i :: 0 <= i < |rest| ==> rest[i] == txs[i + 1];
  }

  lemma NextPending(db: Coins, v: Entries, u: Coins, txs: seq<Tx>, height: nat)
    requires txs != [] && DistinctIds(txs) && Shows(db, v, u, CreatedKeys(txs)) && CreatedKeys(txs) !! u.Keys
    ensures var w := u + Created(txs[0], height, false);
            && Shows(db, Added(v, txs[0], height, false), w, CreatedKeys(txs[1..]))
            && CreatedKeys(txs[1..]) !! w.Keys
  {
    AddedShows(db, v, u, CreatedKeys(txs), txs[0], height, false);
    SameKeys(txs[0], 0, height, false, false);
    CreatedHaveIds(txs[1..]);
  }

  function Transactions(b: Block): seq<Tx> { [b.coinbase] + b.txs }

  function Stored(db: Coins, o: OutPoint): Option<Entry> {
    if o in db then Some(Entry(db[o], false, false)) else None
  }

  /** Some transaction spends o. */
  predicate Spends(txs: seq<Tx>, o: OutPoint) { exists i :: 0 <= i < |txs| && o in txs[i].inputs }

  /** The entry of a new output of the block. */
  predicate IsNewOutput(b: Block, height: nat, o: OutPoint, e: Option<Entry>) {
    var all := Transactions(b);
    exists k :: 0 <= k < |all| && o in Created(all[k], height, k == 0)
                && e == Some(Entry(Created(all[k], height, k == 0)[o], false, true))
  }

  lemma NewOutputKeys(b: Block, height: nat, o: OutPoint, e: Option<Entry>)
    requires IsNewOutput(b, height, o, e)
    ensures o in CreatedKeys(Transactions(b)) && e.Some? && e.value.modified && !e.value.spent
  {
    var all := Transactions(b);
    var k :| 0 <= k < |all| && o in Created(all[k], height, k == 0)
             && e == Some(Entry(Created(all[k], height, k == 0)[o], false, true));
    MemberKeys(all, k, height, k == 0);
  }

  /** What loading the inputs of a block leaves in the view: earlier entries, entries from
      the database for inputs, and outputs of the block itself that some input refers to. */
  ghost predicate Fetched(db: Coins, v0: Entries, v1: Entries, b: Block, height: nat) {
    && v0.Keys <= v1.Keys
    && Loaded(v1, b.txs, Ids(Transactions(b)))
    && forall o :: o in v1 ==>
      || (o in v0 && v1[o] == v0[o])
      || (o !in v0 && v1[o] == Stored(db, o) && Spends(b.txs, o))
      || IsNewOutput(b, height, o, v1[o])
  }

  predicate InFlight(inFlight: map<Hash, nat>, txs: seq<Tx>) {
    forall h :: h in inFlight ==> inFlight[h] < |txs| && txs[inFlight[h]].id == h
  }

  /** The view while inputs are being gathered, before anything is read. */
  predicate Gathered(v0: Entries, v: Entries, needed: set<OutPoint>, b: Block, height: nat) {
    && v0.Keys <= v.Keys && needed !! v0.Keys
    && (forall o :: o in needed ==> Spends(b.txs, o))
    && forall o :: o in v ==> (o in v0 && v[o] == v0[o]) || IsNewOutput(b, height, o, v[o])
  }

  lemma GatheredGrows(v0: Entries, v: Entries, needed: set<OutPoint>, b: Block, height: nat, k: nat)
    requires Gathered(v0, v, needed, b, height) && k < |Transactions(b)|
    ensures Gathered(v0, Added(v, Transactions(b)[k], height, k == 0), needed, b, height)
  {
    var created := Created(Transactions(b)[k], height, k == 0);
    var w := Added(v, Transactions(b)[k], height, k == 0);
    forall o | o in w ensures (o in v0 && w[o] == v0[o]) || IsNewOutput(b, height, o, w[o]) {
      if o !in created { assert w[o] == v[o]; }
    }
  }

  function Read(db: Coins, v: Entries, needed: set<OutPoint>): Entries {
    v + map o | o in needed :: Stored(db, o)
  }

  lemma ReadOne(db: Coins, v: Entries, needed: set<OutPoint>, o: OutPoint)
    requires o in needed
    ensures Read(db, v[o := Stored(db, o)], needed - {o}) == Read(db, v, needed)
  {
  }

  lemma ReadingFetches(db: Coins, v0: Entries, v: Entries, needed: set<OutPoint>, b: Block, height: nat)
    requires Gathered(v0, v, needed, b, height) && Covered(v.Keys + needed, b.txs, Ids(Transactions(b)))
    ensures Fetched(db, v0, Read(db, v, needed), b, height)
  {
    hide IsNewOutput, Spends, Ids, Stored;
    assert Read(db, v, needed).Keys == v.Keys + needed;
  }

  lemma {:induction false} MemberKeys(txs: seq<Tx>, k: nat, height: nat, isCoinBase: bool)
    requires k < |txs|
    ensures Created(txs[k], height, isCoinBase).Keys <= CreatedKeys(txs) && txs[k].id in Ids(txs)
  {
    if k == 0 {
      SameKeys(txs[0], 0, height, false, isCoinBase);
    } else {
      MemberKeys(txs[1..], k - 1, height, isCoinBase);
    }
  }

  /** Loading leaves what the view shows as it was, but for outputs of the block added early. */
  lemma FetchedStillShows(db: Coins, v0: Entries, v1: Entries, b: Block, height: nat, u: Coins)
    requires Cached(db, v0) && Shows(db, v0, u, {}) && Fetched(db, v0, v1, b, height)
    ensures Cached(db, v1) && Shows(db, v1, u, CreatedKeys(Transactions(b)))
  {
    NewOutputsArePending(v1, b, height);
    hide IsNewOutput, Spends;
    forall o | o !in CreatedKeys(Transactions(b)) ensures LookAt(db, v1, o) == Get(u, o) {
      assert LookAt(db, v0, o) == Get(u, o);
    }
  }

  lemma FetchedShows(db: Coins, v0: Entries, v1: Entries, b: Block, height: nat)
    requires Settled(db, v0) && Fetched(db, v0, v1, b, height)
    ensures Cached(db, v1) && Shows(db, v1, db, CreatedKeys(Transactions(b)))
  {
    SettledShows(db, v0);
    hide Settled, Fetched, Cached, Shows;
    FetchedStillShows(db, v0, v1, b, height, db);
  }

  lemma SettledShows(db: Coins, v: Entries)
    requires Settled(db, v)
    ensures Cached(db, v) && Shows(db, v, db, {})
  {
  }

  lemma NewOutputsArePending(v: Entries, b: Block, height: nat)
    ensures forall o :: o in v && IsNewOutput(b, height, o, v[o]) ==>
              o in CreatedKeys(Transactions(b)) && v[o].Some? && v[o].value.modified && !v[o].value.spent
  {
    forall o | o in v && IsNewOutput(b, height, o, v[o])
      ensures o in CreatedKeys(Transactions(b)) && v[o].Some? && v[o].value.modified && !v[o].value.spent
    {
      NewOutputKeys(b, height, o, v[o]);
    }
  }

  function ConnectedBlock(v: Entries, b: Block, height: nat): Option<Connected> {
    ConnectedTxs(Added(v, b.coinbase, height, true), b.txs, height, [])
  }

  /** Transaction ids are hashes: they tell the block's transactions from each other and
      from everything already stored. */
  predicate FreshIds(db: Coins, b: Block) {
    DistinctIds(Transactions(b)) && NoIds(db, Ids(Transactions(b)))
  }

  /** Connecting a block through a view that shows an unspent set, whatever is stored, shows the
      connected set and hands over its journal entry. */
  lemma ConnectsFrom(db: Coins, v0: Entries, v1: Entries, b: Block, height: nat, u: Coins)
    requires Cached(db, v0) && Shows(db, v0, u, {}) && Fetched(db, v0, v1, b, height)
    requires CanConnect(u, b, height) && FreshIds(u, b)
    ensures var r := ConnectedBlock(v1, b, height);
            && r.Some? && r.value.stxos == JournalEntry(u, b, height)
            && Shows(db, r.value.entries, Connect(u, b, height), {})
  {
    var all := Transactions(b);
    assert all[0] == b.coinbase && all[1..] == b.txs;
    IdsAreCovered(db, v0, v1, b, height, u);
    FetchedStillShows(db, v0, v1, b, height, u);
    CreatedHaveIds(all);
    AddedShows(db, v1, u, CreatedKeys(all), b.coinbase, height, true);
    SameKeys(b.coinbase, 0, height, false, true);
    var v := Added(v1, b.coinbase, height, true);
    var w := u + Created(b.coinbase, height, true);
    CreatedHaveIds(b.txs);
    assert Shows(db, v, w, CreatedKeys(b.txs));
    hide Fetched, Cached, Shows;
    ConnectedTxsShows(db, v, w, b.txs, height, [], Ids(all));
    assert [] + SpentByTxs(w, b.txs, height) == SpentByTxs(w, b.txs, height);
  }

  lemma IdsAreCovered(db: Coins, v0: Entries, v1: Entries, b: Block, height: nat, u: Coins)
    requires Shows(db, v0, u, {}) && Fetched(db, v0, v1, b, height) && FreshIds(u, b)
    ensures CoversIds(db, Added(v1, b.coinbase, height, true), Ids(Transactions(b)))
  {
    hide Ids, DistinctIds, IsNewOutput;
    forall o | o in db && o.txid in Ids(Transactions(b)) ensures o in v0 {
      assert LookAt(db, v0, o) == Get(u, o);
    }
  }

  /** Connecting a block through a view that repeats the stored set shows, and so writes,
      exactly the connected set, and hands over exactly its journal entry. */
  lemma ViewConnects(db: Coins, v0: Entries, v1: Entries, b: Block, height: nat)
    requires Settled(db, v0) && Fetched(db, v0, v1, b, height) && CanConnect(db, b, height) && FreshIds(db, b)
    ensures var r := ConnectedBlock(v1, b, height);
            && r.Some? && r.value.stxos == JournalEntry(db, b, height)
            && Shows(db, r.value.entries, Connect(db, b, height), {})
            && Regular(db, r.value.entries)
  {
    hide Fetched, Settled, Cached, Shows, CanConnect, FreshIds, Connect, ConnectedBlock, Regular;
    SettledShows(db, v0);
    ConnectsFrom(db, v0, v1, b, height, db);
    RegularBlock(db, v0, v1, b, height);
  }

  // ----- what the entries of a connected view look like

  /** An entry for a stored output repeats it, possibly marked spent; an entry for any other
      output is marked modified. */
  predicate Regular(db: Coins, v: Entries) {
    forall o :: o in v ==>
      if v[o].None? then o !in db
      else
        && (if o in db then v[o].value.coin == db[o] else v[o].value.modified)
        && (v[o].value.spent ==> v[o].value.modified)
  }

  lemma {:induction false} RegularSpends(db: Coins, v: Entries, inputs: seq<OutPoint>, stxos: seq<Coin>)
    requires Regular(db, v)
    ensures var r := SpendInputs(v, inputs, stxos); r.Some? ==> Regular(db, r.value.entries)
    decreases inputs
  {
    if inputs != [] && inputs[0] in v && v[inputs[0]].Some? {
      var e := v[inputs[0]].value;
      RegularSpends(db, v[inputs[0] := Some(e.Spend())], inputs[1..], stxos + [e.coin]);
    }
  }

  lemma {:induction false} RegularTxs(db: Coins, v: Entries, txs: seq<Tx>, height: nat, stxos: seq<Coin>)
    requires Regular(db, v) && NoIds(db, Ids(txs))
    ensures var r := ConnectedTxs(v, txs, height, stxos); r.Some? ==> Regular(db, r.value.entries)
    decreases txs
  {
    if txs != [] {
      RegularSpends(db, v, txs[0].inputs, stxos);
      match SpendInputs(v, txs[0].inputs, stxos)
      case None =>
      case Some(c) => RegularTxs(db, Added(c.entries, txs[0], height, false), txs[1..], height, c.stxos);
    }
  }

  lemma RegularBlock(db: Coins, v0: Entries, v1: Entries, b: Block, height: nat)
    requires Settled(db, v0) && Fetched(db, v0, v1, b, height) && FreshIds(db, b)
    ensures var r := ConnectedBlock(v1, b, height); r.Some? ==> Regular(db, r.value.entries)
  {
    var all := Transactions(b);
    assert all[0] == b.coinbase && all[1..] == b.txs;
    CreatedHaveIds(all);
    NewOutputsArePending(v1, b, height);
    assert Regular(db, v1) by { hide IsNewOutput; }
    RegularTxs(db, Added(v1, b.coinbase, height, true), b.txs, height, []);
  }

  /** No entry of a stored output is marked modified without being spent. */
  predicate Plain(db: Coins, v: Entries) {
    forall o :: o in v && o in db && v[o].Some? && v[o].value.modified ==> v[o].value.spent
  }

  lemma {:induction false} PlainTxs(db: Coins, v: Entries, txs: seq<Tx>, height: nat, stxos: seq<Coin>)
    requires Plain(db, v) && NoIds(db, Ids(txs))
    ensures var r := ConnectedTxs(v, txs, height, stxos); r.Some? ==> Plain(db, r.value.entries)
    decreases txs
  {
    if txs != [] {
      PlainSpends(db, v, txs[0].inputs, stxos);
      match SpendInputs(v, txs[0].inputs, stxos)
      case None =>
      case Some(c) => PlainTxs(db, Added(c.entries, txs[0], height, false), txs[1..], height, c.stxos);
    }
  }

  lemma {:induction false} PlainSpends(db: Coins, v: Entries, inputs: seq<OutPoint>, stxos: seq<Coin>)
    requires Plain(db, v)
    ensures var r := SpendInputs(v, inputs, stxos); r.Some? ==> Plain(db, r.value.entries)
    decreases inputs
  {
    if inputs != [] && inputs[0] in v && v[inputs[0]].Some? {
      var e := v[inputs[0]].value;
      PlainSpends(db, v[inputs[0] := Some(e.Spend())], inputs[1..], stxos + [e.coin]);
    }
  }

  /** A view that starts out empty is an exact diff of the stored set as far as stored
      outputs go: what is marked modified is spent. */
  lemma NewViewIsPlain(db: Coins, v1: Entries, b: Block, height: nat)
    requires Fetched(db, map[], v1, b, height) && FreshIds(db, b)
    ensures var r := ConnectedBlock(v1, b, height); r.Some? ==> Plain(db, r.value.entries)
  {
    var all := Transactions(b);
    assert all[0] == b.coinbase && all[1..] == b.txs;
    CreatedHaveIds(all);
    NewOutputsArePending(v1, b, height);
    assert Plain(db, v1) by { hide IsNewOutput; }
    PlainTxs(db, Added(v1, b.coinbase, height, true), b.txs, height, []);
  }

  // ----- disconnecting a block

  /** Marks the outputs of a transaction spent, adding entries for those not in the view. */
  function Removed(v: Entries, tx: Tx, height: nat, isCoinBase: bool): Entries {
    RemovedAll(v, Created(tx, height, isCoinBase))
  }

  function RemovedAll(v: Entries, created: Coins): Entries {
    v + map o | o in created :: Some(RemovedEntry(v, o, created[o]))
  }

  function RemovedEntry(v: Entries, o: OutPoint, c: Coin): Entry {
    if o in v && v[o].Some? then v[o].value.Spend() else Entry(c, true, true)
  }

  lemma RemovedNext(v: Entries, tx: Tx, i: nat, height: nat, isCoinBase: bool)
    requires i < |tx.outputs|
    ensures var before, o, out := Removed(v, First(tx, i), height, isCoinBase), OutPoint(tx.id, i), tx.outputs[i];
            Removed(v, First(tx, i + 1), height, isCoinBase) ==
            if out.spendable then
              before[o := Some(RemovedEntry(before, o, Coin(out.amount, out.script, height, isCoinBase)))]
            else before
  {
    hide RemovedEntry, RemovedAll, Created;
    var o, out := OutPoint(tx.id, i), tx.outputs[i];
    CreatedNext(tx, i, height, isCoinBase);
    RemovedOneMore(v, Created(First(tx, i), height, isCoinBase), o, Coin(out.amount, out.script, height, isCoinBase));
  }

  lemma AddedNext(v: Entries, tx: Tx, i: nat, height: nat, isCoinBase: bool)
    requires i < |tx.outputs|
    ensures var before, o, out := Added(v, First(tx, i), height, isCoinBase), OutPoint(tx.id, i), tx.outputs[i];
            Added(v, First(tx, i + 1), height, isCoinBase) ==
            if out.spendable then
              before[o := Some(Entry(Coin(out.amount, out.script, height, isCoinBase), false, true))]
            else before
  {
    hide AddedAll, Created;
    var o, out := OutPoint(tx.id, i), tx.outputs[i];
    CreatedNext(tx, i, height, isCoinBase);
    AddedOneMore(v, Created(First(tx, i), height, isCoinBase), o, Coin(out.amount, out.script, height, isCoinBase));
  }

  lemma AddedOneMore(v: Entries, created: Coins, o: OutPoint, c: Coin)
    ensures AddedAll(v, created[o := c]) == AddedAll(v, created)[o := Some(Entry(c, false, true))]
  {
  }

  lemma CreatedNext(tx: Tx, i: nat, height: nat, isCoinBase: bool)
    requires i < |tx.outputs|
    ensures var before, o, out := Created(First(tx, i), height, isCoinBase), OutPoint(tx.id, i), tx.outputs[i];
            && o !in before
            && Created(First(tx, i + 1), height, isCoinBase) ==
               if out.spendable then before[o := Coin(out.amount, out.script, height, isCoinBase)] else before
  {
    assert First(tx, i + 1).outputs[..i] == tx.outputs[..i];
  }

  lemma RemovedOneMore(v: Entries, created: Coins, o: OutPoint, c: Coin)
    requires o !in created
    ensures RemovedAll(v, created[o := c]) ==
            RemovedAll(v, created)[o := Some(RemovedEntry(RemovedAll(v, created), o, c))]
  {
  }

  /** Resurrects spent outputs, last input first. */
  function Restored(v: Entries, inputs: seq<OutPoint>, coins: seq<Coin>): Entries
    requires |coins| == |inputs|
  {
    if inputs == [] then v
    else Restored(v, inputs[1..], coins[1..])[inputs[0] := Some(Entry(coins[0], false, true))]
  }

  function DisconnectedTxs(v: Entries, txs: seq<Tx>, height: nat, coins: seq<Coin>): Entries
    requires |coins| == CountInputs(txs)
  {
    if txs == [] then v else
      var k := |txs[0].inputs|;
      Restored(Removed(DisconnectedTxs(v, txs[1..], height, coins[k..]), txs[0], height, false), txs[0].inputs,
               coins[..k])
  }

  function DisconnectedBlock(v: Entries, b: Block, height: nat, coins: seq<Coin>): Entries
    requires |coins| == CountInputs(b.txs)
  {
    Removed(DisconnectedTxs(v, b.txs, height, coins), b.coinbase, height, true)
  }

  lemma RemovedShows(db: Coins, v: Entries, u: Coins, pending: set<OutPoint>, tx: Tx, height: nat, isCoinBase: bool)
    requires Cached(db, v) && Shows(db, v, u, pending)
    ensures var created := Created(tx, height, isCoinBase);
            && Cached(db, Removed(v, tx, height, isCoinBase))
            && Shows(db, Removed(v, tx, height, isCoinBase), u - created.Keys, pending - created.Keys)
  {
    var created, w := Created(tx, height, isCoinBase), Removed(v, tx, height, isCoinBase);
    forall o | o !in pending - created.Keys ensures LookAt(db, w, o) == Get(u - created.Keys, o) {
      if o !in created { assert LookAt(db, v, o) == Get(u, o); }
    }
  }

  lemma {:induction false} RestoredShows(db: Coins, v: Entries, u: Coins, pending: set<OutPoint>,
                                         inputs: seq<OutPoint>, coins: seq<Coin>)
    requires |coins| == |inputs| && Cached(db, v) && Shows(db, v, u, pending)
    ensures Cached(db, Restored(v, inputs, coins))
    ensures Shows(db, Restored(v, inputs, coins), Restore(u, inputs, coins), pending)
  {
    if inputs != [] { RestoredShows(db, v, u, pending, inputs[1..], coins[1..]); }
  }

  lemma {:induction false} DisconnectedTxsShows(db: Coins, v: Entries, u: Coins, pending: set<OutPoint>, txs: seq<Tx>,
                                                height: nat, coins: seq<Coin>)
    requires |coins| == CountInputs(txs) && Cached(db, v) && Shows(db, v, u, pending)
    ensures Cached(db, DisconnectedTxs(v, txs, height, coins))
    ensures Shows(db, DisconnectedTxs(v, txs, height, coins), DisconnectTxs(u, txs, height, coins),
                  pending - CreatedKeys(txs))
  {
    if txs != [] {
      var tx, k := txs[0], |txs[0].inputs|;
      var w, x := DisconnectedTxs(v, txs[1..], height, coins[k..]), DisconnectTxs(u, txs[1..], height, coins[k..]);
      DisconnectedTxsShows(db, v, u, pending, txs[1..], height, coins[k..]);
      RemovedShows(db, w, x, pending - CreatedKeys(txs[1..]), tx, height, false);
      SameKeys(tx, 0, height, false, false);
      RestoredShows(db, Removed(w, tx, height, false), x - Created(tx, height, false).Keys,
                    pending - CreatedKeys(txs), tx.inputs, coins[..k]);
    }
  }

  /** Disconnecting through a view that shows an unspent set, whatever is stored. */
  lemma DisconnectsFrom(db: Coins, v0: Entries, v1: Entries, b: Block, height: nat, coins: seq<Coin>, u: Coins)
    requires Cached(db, v0) && Shows(db, v0, u, {}) && Fetched(db, v0, v1, b, height) && |coins| == CountInputs(b.txs)
    ensures var v := DisconnectedBlock(v1, b, height, coins);
            Cached(db, v) && Shows(db, v, Disconnect(u, b, height, coins), {})
  {
    var all := Transactions(b);
    assert all[0] == b.coinbase && all[1..] == b.txs;
    FetchedStillShows(db, v0, v1, b, height, u);
    DisconnectedTxsShows(db, v1, u, CreatedKeys(all), b.txs, height, coins);
    SameKeys(b.coinbase, 0, height, false, true);
    RemovedShows(db, DisconnectedTxs(v1, b.txs, height, coins), DisconnectTxs(u, b.txs, height, coins),
                 CreatedKeys(all) - CreatedKeys(b.txs), b.coinbase, height, true);
  }

  /** Disconnecting through the view is disconnecting in the ledger. */
  lemma ViewDisconnects(db: Coins, v0: Entries, v1: Entries, b: Block, height: nat, coins: seq<Coin>)
    requires Settled(db, v0) && Fetched(db, v0, v1, b, height) && |coins| == CountInputs(b.txs)
    ensures var v := DisconnectedBlock(v1, b, height, coins);
            Cached(db, v) && Shows(db, v, Disconnect(db, b, height, coins), {})
  {
    hide Fetched, Settled, Cached, Shows, DisconnectedBlock, Disconnect;
    SettledShows(db, v0);
    DisconnectsFrom(db, v0, v1, b, height, coins, db);
  }

  // ----- one block after the other through the same view

  lemma RegularIsCached(db: Coins, v: Entries)
    requires Regular(db, v)
    ensures Cached(db, v)
  {
  }

  /** Connecting, writing and committing leaves the connected set stored and a view that
      repeats it, ready for the next block. */
  lemma ConnectThroughView(db: Coins, v0: Entries, v1: Entries, b: Block, height: nat, v2: Entries, written: Coins)
    requires Settled(db, v0) && Fetched(db, v0, v1, b, height) && CanConnect(db, b, height) && FreshIds(db, b)
    requires ConnectedBlock(v1, b, height).Some? && v2 == ConnectedBlock(v1, b, height).value.entries
    requires IsPut(db, v2, v2.Keys, written)
    ensures written == Connect(db, b, height) && Settled(written, Committed(v2))
  {
    ViewConnects(db, v0, v1, b, height);
    RegularIsCached(db, v2);
    WritesWhatItShows(db, v2, written, Connect(db, b, height));
    CommitSettles(db, v2, written);
  }

  /** The same for disconnecting, so that a reorganization can carry one view from the first
      detached block to the last attached one. */
  lemma DisconnectThroughView(u: Coins, db: Coins, v0: Entries, v1: Entries, b: Block, height: nat, v2: Entries,
                              written: Coins)
    requires CanConnect(u, b, height) && db == Connect(u, b, height)
    requires Settled(db, v0) && Fetched(db, v0, v1, b, height)
    requires v2 == DisconnectedBlock(v1, b, height, JournalEntry(u, b, height))
    requires IsPut(db, v2, v2.Keys, written)
    ensures written == u && Settled(written, Committed(v2))
  {
    ViewDisconnects(db, v0, v1, b, height, JournalEntry(u, b, height));
    DisconnectUndoesConnect(u, b, height);
    WritesWhatItShows(db, v2, written, u);
    CommitSettles(db, v2, written);
  }

  // ----- the view object

  function First(tx: Tx, i: nat): Tx
    requires i <= |tx.outputs|
  {
    Tx(tx.id, tx.inputs, tx.outputs[..i])
  }

  class UtxoViewpoint {
    var entries: Entries

    constructor ()
      ensures entries == map[]
    {
      entries := map[];
    }

    method AddTxOuts(tx: Tx, height: nat, isCoinBase: bool)
      modifies this
      ensures entries == Added(old(entries), tx, height, isCoinBase)
    {
      hide Added;
      AddedNothing(entries, First(tx, 0), height, isCoinBase);
      for i := 0 to |tx.outputs|
        invariant entries == Added(old(entries), First(tx, i), height, isCoinBase)
      {
        AddedNext(old(entries), tx, i, height, isCoinBase);
        var out := tx.outputs[i];
        if out.spendable {
          var coin := Coin(out.amount, out.script, height, isCoinBase);
          entries := entries[OutPoint(tx.id, i) := Some(Entry(coin, false, true))];
        }
      }
      assert First(tx, |tx.outputs|) == tx;
    }

    /** Marks the inputs of a transaction spent and adds its outputs.  The records of the
        spent outputs are appended to `stxos`; absent if an input has no entry. */
    method ConnectTransaction(tx: Tx, height: nat, stxos: seq<Coin>) returns (r: Option<seq<Coin>>)
      modifies this
      ensures match SpendInputs(old(entries), tx.inputs, stxos)
              case None => r == None
              case Some(c) => r == Some(c.stxos) && entries == Added(c.entries, tx, height, false)
    {
      var spent := stxos;
      for i := 0 to |tx.inputs|
        invariant SpendInputs(old(entries), tx.inputs, stxos) == SpendInputs(entries, tx.inputs[i..], spent)
      {
        var o := tx.inputs[i];
        if o !in entries || entries[o].None? { return None; }
        var e := entries[o].value;
        assert tx.inputs[i..][1..] == tx.inputs[i + 1..];
        spent := spent + [e.coin];
        entries := entries[o := Some(e.Spend())];
      }
      AddTxOuts(tx, height, false);
      r := Some(spent);
    }

    method ConnectTransactions(b: Block, height: nat) returns (r: Option<seq<Coin>>)
      modifies this
      ensures match ConnectedBlock(old(entries), b, height)
              case None => r == None
              case Some(c) => r == Some(c.stxos) && entries == c.entries
    {
      AddTxOuts(b.coinbase, height, true);
      var stxos := [];
      for i := 0 to |b.txs|
        invariant ConnectedBlock(old(entries), b, height) == ConnectedTxs(entries, b.txs[i..], height, stxos)
      {
        assert b.txs[i..][0] == b.txs[i] && b.txs[i..][1..] == b.txs[i + 1..];
        var next := ConnectTransaction(b.txs[i], height, stxos);
        if next.None? { return None; }
        stxos := next.value;
      }
      r := Some(stxos);
    }

    /** Marks the outputs of a transaction spent, whether or not the view has them. */
    method RemoveTxOuts(tx: Tx, height: nat, isCoinBase: bool)
      modifies this
      ensures entries == Removed(old(entries), tx, height, isCoinBase)
    {
      hide Removed;
      AddedNothing(entries, First(tx, 0), height, isCoinBase);
      for i := 0 to |tx.outputs|
        invariant entries == Removed(old(entries), First(tx, i), height, isCoinBase)
      {
        RemovedNext(old(entries), tx, i, height, isCoinBase);
        var out, o := tx.outputs[i], OutPoint(tx.id, i);
        if out.spendable {
          var e := Entry(Coin(out.amount, out.script, height, isCoinBase), false, false);
          if o in entries && entries[o].Some? { e := entries[o].value; }
          entries := entries[o := Some(e.Spend())];
        }
      }
      assert First(tx, |tx.outputs|) == tx;
    }

    method RestoreInputs(inputs: seq<OutPoint>, coins: seq<Coin>)
      requires |coins| == |inputs|
      modifies this
      ensures entries == Restored(old(entries), inputs, coins)
    {
      for i := |inputs| downto 0
        invariant entries == Restored(old(entries), inputs[i..], coins[i..])
      {
        entries := entries[inputs[i] := Some(Entry(coins[i], false, true))];
      }
      assert inputs[0..] == inputs && coins[0..] == coins;
    }

    /** Walks the block backwards; refuses a journal entry of the wrong length. */
    method DisconnectTransactions(b: Block, height: nat, stxos: seq<Coin>) returns (ok: bool)
      modifies this
      ensures ok == (|stxos| == CountInputs(b.txs))
      ensures entries == if ok then DisconnectedBlock(old(entries), b, height, stxos) else old(entries)
    {
      var total := 0;
      for i := 0 to |b.txs|
        invariant total + CountInputs(b.txs[i..]) == CountInputs(b.txs)
      {
        total := total + |b.txs[i].inputs|;
        assert b.txs[i..][1..] == b.txs[i + 1..];
      }
      if |stxos| != total { return false; }
      var rest := |stxos|;
      for i := |b.txs| downto 0
        invariant 0 <= rest <= |stxos| && |stxos| - rest == CountInputs(b.txs[i..])
        invariant entries == DisconnectedTxs(old(entries), b.txs[i..], height, stxos[rest..])
      {
        var tx := b.txs[i];
        ghost var tail := b.txs[i..];
        assert tail[0] == tx && tail[1..] == b.txs[i + 1..];
        SuffixFits(b.txs, i);
        var k := rest - |tx.inputs|;
        assert stxos[k..][|tx.inputs|..] == stxos[rest..] && stxos[k..][..|tx.inputs|] == stxos[k..rest];
        RemoveTxOuts(tx, height, false);
        RestoreInputs(tx.inputs, stxos[k..rest]);
        rest := k;
      }
      assert b.txs[0..] == b.txs && stxos[0..] == stxos;
      RemoveTxOuts(b.coinbase, height, true);
      ok := true;
    }

    /** Loads what the inputs of a block refer to: outputs of earlier transactions of the
        block itself are added as new, anything else not in the view is read from the
        database, giving a nil entry when it is not there. */
    method FetchInputUtxos(db: Coins, b: Block, height: nat)
      modifies this
      ensures Fetched(db, old(entries), entries, b, height)
    {
      hide Fetched, Ids, IsNewOutput;
      var all := Transactions(b);
      var inFlight: map<Hash, nat> := map[];
      for i := 0 to |all|
        invariant InFlight(inFlight, all)
      {
        inFlight := inFlight[all[i].id := i];
      }
      var needed: set<OutPoint> := {};
      for i := 0 to |b.txs|
        invariant Gathered(old(entries), entries, needed, b, height)
        invariant Covered(entries.Keys + needed, b.txs[..i], Ids(all))
      {
        needed := GatherInputs(b, height, i, inFlight, needed, old(entries));
        assert b.txs[..i + 1] == b.txs[..i] + [b.txs[i]];
      }
      assert b.txs[..|b.txs|] == b.txs;
      ReadingFetches(db, old(entries), entries, needed, b, height);
      FetchUtxosMain(db, needed);
    }

    /** Reads the outputs from the database, with a nil entry for each that is not there. */
    method FetchUtxosMain(db: Coins, needed: set<OutPoint>)
      modifies this
      ensures entries == Read(db, old(entries), needed)
    {
      var todo := needed;
      while todo != {}
        invariant Read(db, entries, todo) == Read(db, old(entries), needed)
        decreases todo
      {
        hide Read, Stored;
        var o :| o in todo;
        ReadOne(db, entries, todo, o);
        entries := entries[o := Stored(db, o)];
        todo := todo - {o};
      }
    }

    /** The inputs of one transaction. */
    method GatherInputs(b: Block, height: nat, i: nat, inFlight: map<Hash, nat>, needed: set<OutPoint>,
                        ghost v0: Entries)
      returns (more: set<OutPoint>)
      requires i < |b.txs| && InFlight(inFlight, Transactions(b)) && Gathered(v0, entries, needed, b, height)
      modifies this
      ensures Gathered(v0, entries, more, b, height) && old(entries).Keys <= entries.Keys && needed <= more
      ensures forall o :: o in b.txs[i].inputs ==> o in entries || o in more || o.txid in Ids(Transactions(b))
    {
      more := needed;
      var inputs := b.txs[i].inputs;
      for j := 0 to |inputs|
        invariant Gathered(v0, entries, more, b, height) && old(entries).Keys <= entries.Keys && needed <= more
        invariant forall o :: o in inputs[..j] ==> o in entries || o in more || o.txid in Ids(Transactions(b))
      {
        var o := inputs[j];
        assert inputs[..j + 1] == inputs[..j] + [o];
        if o.txid in inFlight && i >= inFlight[o.txid] {
          var k := inFlight[o.txid];
          var tx := Transactions(b)[k];
          MemberKeys(Transactions(b), k, height, k == 0);
          GatheredGrows(v0, entries, more, b, height, k);
          AddTxOuts(tx, height, k == 0);
        } else if o !in entries {
          more := more + {o};
        }
      }
      assert inputs[..|inputs|] == inputs;
    }

    method Commit()
      modifies this
      ensures entries == Committed(old(entries))
    {
      var todo := entries.Keys;
      while todo != {}
        invariant todo <= old(entries).Keys
        invariant forall o :: o in todo ==> o in entries && entries[o] == old(entries)[o]
        invariant forall o :: o !in todo ==>
                    if o in Committed(old(entries)) then o in entries && entries[o] == Committed(old(entries))[o]
                    else o !in entries
        decreases todo
      {
        var o :| o in todo;
        var e := entries[o];
        if e.None? || (e.value.modified && e.value.spent) {
          entries := entries - {o};
        } else {
          entries := entries[o := Some(Toggled(e.value))];
        }
        todo := todo - {o};
      }
    }
  }

  lemma {:induction false} SuffixFits(txs: seq<Tx>, i: nat)
    requires i < |txs|
    ensures |txs[i].inputs| + CountInputs(txs[i + 1..]) == CountInputs(txs[i..]) <= CountInputs(txs)
  {
    assert txs[i..][1..] == txs[i + 1..];
    if i == 0 {
      assert txs[0..] == txs;
    } else {
      assert txs[1..][i - 1..] == txs[i..] && txs[1..][i..] == txs[i + 1..];
      SuffixFits(txs[1..], i - 1);
    }
  }
}
