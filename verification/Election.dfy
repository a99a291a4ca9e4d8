/** The network steward election: the disapproval kept from block to block, the full count
    it falls back to, and when both agree with a recount of the unspent set. */
module Elections {
  import opened Options
  import opened Ledger
  import opened UtxoViews
  import opened ChainStore
  import Money

  type Key = seq<Byte>

  datatype Ballot = Ballot(approves: Option<Key>, opposes: Option<Key>)

  // ----- reading a ballot from a script

  const OP_0 := 0
  const OP_PUSHDATA1 := 0x4c
  const OP_PUSHDATA2 := 0x4d
  const OP_PUSHDATA4 := 0x4e
  const OP_16 := 0x60
  const OP_VOTE := 0x66

  datatype ParsedOpcode = ParsedOpcode(value: nat, data: seq<Byte>) {
    predicate CanonicalPush() {
      || value > OP_16
      || !(|| (OP_0 < value < OP_PUSHDATA1 && |data| == 1 && data[0] <= 16)
           || (value == OP_PUSHDATA1 && |data| < OP_PUSHDATA1)
           || (value == OP_PUSHDATA2 && |data| <= 0xff)
           || (value == OP_PUSHDATA4 && |data| <= 0xffff))
    }

    /** Pushes a key, or nothing. */
    predicate IsChoice() { value == OP_0 || (CanonicalPush() && 0 < |data| < 80) }

    function Choice(): Option<Key> { if value == OP_0 then None else Some(data) }
  }

  /** An opcode that pushes its data, as the parser reads it. */
  predicate Pushes(op: ParsedOpcode) {
    && op.value <= 78
    && (op.value <= 75 ==> |op.data| == op.value)
    && (op.value == 76 ==> |op.data| <= 255)
    && (op.value == 77 ==> |op.data| <= 65535)
  }

  /** A push is canonical exactly if it uses the shortest opcode for its length, and does not
      push a byte that has an opcode of its own. */
  lemma CanonicalIff(op: ParsedOpcode)
    requires Pushes(op)
    ensures var n := |op.data|;
            op.CanonicalPush() <==>
            && op.value == (if n <= 75 then n else if n <= 255 then 76 else if n <= 65535 then 77 else 78)
            && !(n == 1 && op.data[0] <= 16)
  {
  }

  /** A vote opcode preceded by two choices. */
  predicate IsVote(pops: seq<ParsedOpcode>, i: int) {
    2 <= i < |pops| && pops[i].value == OP_VOTE && pops[i - 1].IsChoice() && pops[i - 2].IsChoice()
  }

  predicate ShortKey(k: Option<Key>) { k.Some? ==> 0 < |k.value| < 80 }

  /** The first well-formed vote of a script counts, and no other. */
  method GetVotesForAgainst(pops: seq<ParsedOpcode>) returns (b: Ballot)
    ensures ShortKey(b.approves) && ShortKey(b.opposes)
    ensures forall i :: IsVote(pops, i) && (forall j :: 0 <= j < i ==> !IsVote(pops, j)) ==>
              b == Ballot(pops[i - 2].Choice(), pops[i - 1].Choice())
    ensures (forall i :: 0 <= i < |pops| ==> !IsVote(pops, i)) ==> b == Ballot(None, None)
  {
    var voteFor: Option<Key>, voteAgainst: Option<Key> := None, None;
    for i := 0 to |pops|
      invariant voteFor == None && voteAgainst == None
      invariant forall j :: 0 <= j < i ==> !IsVote(pops, j)
    {
      if pops[i].value != OP_VOTE || i < 2 { continue; }
      if pops[i - 1].value == OP_0 {
      } else if pops[i - 1].CanonicalPush() && 0 < |pops[i - 1].data| < 80 {
        voteAgainst := Some(pops[i - 1].data);
      } else {
        continue;
      }
      if pops[i - 2].value == OP_0 {
      } else if pops[i - 2].CanonicalPush() && 0 < |pops[i - 2].data| < 80 {
        voteFor := Some(pops[i - 2].data);
      } else {
        voteAgainst := None;
        continue;
      }
      assert IsVote(pops, i);
      break;
    }
    b := Ballot(voteFor, voteAgainst);
  }

  /** Two keys pushed the shortest way before opcode 0x66 make a vote, and so do empty pushes. */
  lemma VoteFormat(a: Key, b: Key)
    requires 1 < |a| <= 75 && 1 < |b| <= 75
    ensures IsVote([ParsedOpcode(|a|, a), ParsedOpcode(|b|, b), ParsedOpcode(0x66, [])], 2)
    ensures IsVote([ParsedOpcode(0, []), ParsedOpcode(0, []), ParsedOpcode(0x66, [])], 2)
    ensures ParsedOpcode(|a|, a).Choice() == Some(a) && ParsedOpcode(0, []).Choice() == None
  {
  }

  // ----- padding

  /** Candidates are filed under their key filled up with zero bytes. */
  function Pad(k: Key): Key
    decreases 80 - |k|
  {
    if |k| >= 80 then k[..80] else Pad(k + [0])
  }

  /** A file name has 80 bytes: the key, then zeros. */
  lemma {:induction false} PadIs(k: Key)
    requires |k| <= 80
    ensures |Pad(k)| == 80 && Pad(k)[..|k|] == k && forall i :: |k| <= i < 80 ==> Pad(k)[i] == 0
    decreases 80 - |k|
  {
    if |k| == 80 {
      assert k[..80] == k;
    } else {
      PadIs(k + [0]);
      assert Pad(k)[..|k|] == (k + [0])[..|k|] && Pad(k)[|k|] == (k + [0])[|k|];
    }
  }

  function Strip(k: Key): Key {
    if k != [] && k[|k| - 1] == 0 then Strip(k[..|k| - 1]) else k
  }

  lemma {:induction false} StripPad(k: Key)
    requires |k| <= 80
    ensures Strip(Pad(k)) == Strip(k)
    decreases 80 - |k|
  {
    if |k| == 80 {
      assert k[..80] == k;
    } else {
      StripPad(k + [0]);
      assert (k + [0])[..|k|] == k;
    }
  }

  lemma {:induction false} PadStrip(k: Key)
    requires |k| <= 80
    ensures |Strip(k)| <= |k| && Pad(Strip(k)) == Pad(k)
    decreases |k|
  {
    if k != [] && k[|k| - 1] == 0 {
      var l := k[..|k| - 1];
      PadStrip(l);
      assert l + [0] == k;
    }
  }

  /** Two keys share a file exactly when they differ only in zero bytes at the end. */
  lemma PadClashesIff(a: Key, b: Key)
    requires |a| < 80 && |b| < 80
    ensures Pad(a) == Pad(b) <==> Strip(a) == Strip(b)
  {
    StripPad(a);
    StripPad(b);
    PadStrip(a);
    PadStrip(b);
  }

  // ----- sums

  ghost function SumOver(s: set<OutPoint>, f: OutPoint -> int): int {
    if s == {} then 0 else
      var x :| x in s;
      f(x) + SumOver(s - {x}, f)
  }

  lemma {:induction false} SumSplit(s: set<OutPoint>, x: OutPoint, f: OutPoint -> int)
    requires x in s
    ensures SumOver(s, f) == f(x) + SumOver(s - {x}, f)
    decreases s
  {
    var y :| y in s && SumOver(s, f) == f(y) + SumOver(s - {y}, f);
    if y != x {
      SumSplit(s - {y}, x, f);
      SumSplit(s - {x}, y, f);
      assert s - {x} - {y} == s - {y} - {x};
    }
  }

  /** Sums may leave out points that contribute nothing. */
  lemma {:induction false} SumWiden(s: set<OutPoint>, t: set<OutPoint>, f: OutPoint -> int)
    requires s <= t && forall x :: x in t && x !in s ==> f(x) == 0
    ensures SumOver(t, f) == SumOver(s, f)
    decreases t
  {
    if x :| x in t && x !in s {
      SumSplit(t, x, f);
      SumWiden(s, t - {x}, f);
    } else {
      assert s == t;
    }
  }

  lemma {:induction false} SumLinear(s: set<OutPoint>, f: OutPoint -> int, a: OutPoint -> int, b: OutPoint -> int,
                                     c: OutPoint -> int, d: OutPoint -> int)
    requires forall x :: x in s ==> f(x) == a(x) + b(x) + c(x) - d(x)
    ensures SumOver(s, f) == SumOver(s, a) + SumOver(s, b) + SumOver(s, c) - SumOver(s, d)
    decreases s
  {
    if x :| x in s {
      SumSplit(s, x, f);
      SumSplit(s, x, a);
      SumSplit(s, x, b);
      SumSplit(s, x, c);
      SumSplit(s, x, d);
      SumLinear(s - {x}, f, a, b, c, d);
    }
  }

  lemma {:induction false} SumPositive(s: set<OutPoint>, f: OutPoint -> int)
    requires forall x :: x in s ==> f(x) >= 0
    ensures SumOver(s, f) >= 0
    ensures SumOver(s, f) == 0 <==> forall x :: x in s ==> f(x) == 0
    decreases s
  {
    if x :| x in s {
      SumSplit(s, x, f);
      SumPositive(s - {x}, f);
    }
  }

  // ----- what votes are worth

  type Weight = Coin -> int

  function Worth(w: Weight, c: Option<Coin>): int { if c.Some? then w(c.value) else 0 }

  function StoredWorth(w: Weight, u: Coins): OutPoint -> int { o => Worth(w, Get(u, o)) }

  /** The recount: what the coins of a set are worth. */
  ghost function Total(w: Weight, u: Coins): int { SumOver(u.Keys, StoredWorth(w, u)) }

  /** What a view entry is taken to change: modified entries count, spent ones negatively. */
  function Change(w: Weight, v: Entries, o: OutPoint): int {
    if o !in v || v[o].None? || !v[o].value.modified then 0
    else if v[o].value.spent then -w(v[o].value.coin)
    else w(v[o].value.coin)
  }

  function ChangeWorth(w: Weight, v: Entries): OutPoint -> int { o => Change(w, v, o) }

  ghost function Delta(w: Weight, v: Entries): int { SumOver(v.Keys, ChangeWorth(w, v)) }

  /** Created and spent within the block: never stored, yet counted as taken away. */
  function Transient(db: Coins, v: Entries): Coins {
    map o | o in v && o !in db && v[o].Some? && v[o].value.modified && v[o].value.spent :: v[o].value.coin
  }

  /** Stored already and not touched, yet marked modified: counted as added once more. */
  function Repeated(db: Coins, v: Entries): Coins {
    map o | o in v && o in db && v[o].Some? && v[o].value.modified && !v[o].value.spent :: v[o].value.coin
  }

  lemma WidenTotal(w: Weight, u: Coins, s: set<OutPoint>)
    requires u.Keys <= s
    ensures Total(w, u) == SumOver(s, StoredWorth(w, u))
  {
    SumWiden(u.Keys, s, StoredWorth(w, u));
  }

  /** What the changes of a view add up to, for any way of weighing coins. */
  lemma ChangesBalance(w: Weight, db: Coins, v: Entries, u: Coins)
    requires Regular(db, v) && Shows(db, v, u, {})
    ensures Total(w, u) == Total(w, db) + Delta(w, v) + Total(w, Transient(db, v)) - Total(w, Repeated(db, v))
  {
    var s := db.Keys + v.Keys;
    forall o ensures o in u ==> o in s {
      assert LookAt(db, v, o) == Get(u, o);
    }
    WidenTotal(w, u, s);
    WidenTotal(w, db, s);
    WidenTotal(w, Transient(db, v), s);
    WidenTotal(w, Repeated(db, v), s);
    SumWiden(v.Keys, s, ChangeWorth(w, v));
    forall o | o in s
      ensures StoredWorth(w, u)(o) == StoredWorth(w, db)(o) + ChangeWorth(w, v)(o)
              + StoredWorth(w, Transient(db, v))(o) - StoredWorth(w, Repeated(db, v))(o)
    {
      BalanceAt(w, db, v, u, o);
    }
    SumLinear(s, StoredWorth(w, u), StoredWorth(w, db), ChangeWorth(w, v), StoredWorth(w, Transient(db, v)),
              StoredWorth(w, Repeated(db, v)));
  }

  lemma BalanceAt(w: Weight, db: Coins, v: Entries, u: Coins, o: OutPoint)
    requires Regular(db, v) && Shows(db, v, u, {})
    ensures Worth(w, Get(u, o)) == Worth(w, Get(db, o)) + Change(w, v, o)
            + Worth(w, Get(Transient(db, v), o)) - Worth(w, Get(Repeated(db, v), o))
  {
    assert LookAt(db, v, o) == Get(u, o);
  }

  // ----- counting ballots

  type Votes = seq<Byte> -> Ballot

  function Opposing(votes: Votes, s: Key): Weight {
    (c: Coin) => if votes(c.script).opposes == Some(s) then c.amount else 0
  }

  function Approving(votes: Votes, k: Key): Weight {
    (c: Coin) => if votes(c.script).approves == Some(k) then c.amount else 0
  }

  predicate FiledUnder(k: Option<Key>, file: Key) { k.Some? && Pad(k.value) == file }

  function OpposingFile(votes: Votes, file: Key): Weight {
    (c: Coin) => if FiledUnder(votes(c.script).opposes, file) then c.amount else 0
  }

  function ApprovingFile(votes: Votes, file: Key): Weight {
    (c: Coin) => if FiledUnder(votes(c.script).approves, file) then c.amount else 0
  }

  predicate Names(b: Ballot, keys: set<Key>) {
    (b.approves.Some? ==> b.approves.value in keys) && (b.opposes.Some? ==> b.opposes.value in keys)
  }

  ghost function StoredFor(votes: Votes, db: Coins, s: set<OutPoint>, file: Key): int {
    SumOver(s, StoredWorth(ApprovingFile(votes, file), db))
  }

  ghost function StoredAgainst(votes: Votes, db: Coins, s: set<OutPoint>, file: Key): int {
    SumOver(s, StoredWorth(OpposingFile(votes, file), db))
  }

  ghost function ChangedFor(votes: Votes, v: Entries, s: set<OutPoint>, file: Key): int {
    SumOver(s, ChangeWorth(ApprovingFile(votes, file), v))
  }

  ghost function ChangedAgainst(votes: Votes, v: Entries, s: set<OutPoint>, file: Key): int {
    SumOver(s, ChangeWorth(OpposingFile(votes, file), v))
  }

  lemma StoredNext(votes: Votes, db: Coins, s: set<OutPoint>, o: OutPoint)
    requires o in db && o !in s
    ensures var b, x := votes(db[o].script), db[o].amount;
            forall file ::
              && StoredFor(votes, db, s + {o}, file) ==
                 StoredFor(votes, db, s, file) + (if FiledUnder(b.approves, file) then x else 0)
              && StoredAgainst(votes, db, s + {o}, file) ==
                 StoredAgainst(votes, db, s, file) + (if FiledUnder(b.opposes, file) then x else 0)
  {
    forall file
      ensures var b, x := votes(db[o].script), db[o].amount;
              && StoredFor(votes, db, s + {o}, file) ==
                 StoredFor(votes, db, s, file) + (if FiledUnder(b.approves, file) then x else 0)
              && StoredAgainst(votes, db, s + {o}, file) ==
                 StoredAgainst(votes, db, s, file) + (if FiledUnder(b.opposes, file) then x else 0)
    {
      assert s + {o} - {o} == s;
      SumSplit(s + {o}, o, StoredWorth(ApprovingFile(votes, file), db));
      SumSplit(s + {o}, o, StoredWorth(OpposingFile(votes, file), db));
    }
  }

  /** The ballot a view entry is counted as, and how much it weighs. */
  function CountedAs(votes: Votes, e: Option<Entry>): (Ballot, int) {
    if e.None? || !e.value.modified then (Ballot(None, None), 0)
    else (votes(e.value.coin.script), if e.value.spent then -e.value.coin.amount else e.value.coin.amount)
  }

  lemma ChangedNext(votes: Votes, v: Entries, s: set<OutPoint>, o: OutPoint)
    requires o in v && o !in s
    ensures var (b, x) := CountedAs(votes, v[o]);
            forall file ::
              && ChangedFor(votes, v, s + {o}, file) ==
                 ChangedFor(votes, v, s, file) + (if FiledUnder(b.approves, file) then x else 0)
              && ChangedAgainst(votes, v, s + {o}, file) ==
                 ChangedAgainst(votes, v, s, file) + (if FiledUnder(b.opposes, file) then x else 0)
  {
    forall file
      ensures var (b, x) := CountedAs(votes, v[o]);
              && ChangedFor(votes, v, s + {o}, file) ==
                 ChangedFor(votes, v, s, file) + (if FiledUnder(b.approves, file) then x else 0)
              && ChangedAgainst(votes, v, s + {o}, file) ==
                 ChangedAgainst(votes, v, s, file) + (if FiledUnder(b.opposes, file) then x else 0)
    {
      assert s + {o} - {o} == s;
      SumSplit(s + {o}, o, ChangeWorth(ApprovingFile(votes, file), v));
      SumSplit(s + {o}, o, ChangeWorth(OpposingFile(votes, file), v));
    }
  }

  datatype Candidate = Candidate(approval: int, disapproval: int, key: Key)

  class Election {
    var candidates: map<Key, Candidate>

    constructor ()
      ensures candidates == map[]
    {
      candidates := map[];
    }

    function Approval(file: Key): int
      reads this
    {
      if file in candidates then candidates[file].approval else 0
    }

    function Disapproval(file: Key): int
      reads this
    {
      if file in candidates then candidates[file].disapproval else 0
    }

    /** Every candidate carries one of the given keys and is filed under it. */
    ghost predicate Filed(keys: set<Key>)
      reads this
    {
      forall file :: file in candidates ==> candidates[file].key in keys && Pad(candidates[file].key) == file
    }

    method CastBallot(b: Ballot, value: int, ghost keys: set<Key>)
      requires Filed(keys) && Names(b, keys)
      modifies this
      ensures Filed(keys)
      ensures forall file :: Approval(file) == old(Approval(file)) + if FiledUnder(b.approves, file) then value else 0
      ensures forall file ::
                Disapproval(file) == old(Disapproval(file)) + if FiledUnder(b.opposes, file) then value else 0
    {
      if b.approves.Some? { Approve(b.approves.value, value, keys); }
      if b.opposes.Some? { Oppose(b.opposes.value, value, keys); }
    }

    method Approve(key: Key, value: int, ghost keys: set<Key>)
      requires Filed(keys) && key in keys
      modifies this
      ensures Filed(keys)
      ensures forall file :: Approval(file) == old(Approval(file)) + if Pad(key) == file then value else 0
      ensures forall file :: Disapproval(file) == old(Disapproval(file))
    {
      var file := Pad(key);
      var x := if file in candidates then candidates[file] else Candidate(0, 0, key);
      candidates := candidates[file := x.(approval := x.approval + value)];
    }

    method Oppose(key: Key, value: int, ghost keys: set<Key>)
      requires Filed(keys) && key in keys
      modifies this
      ensures Filed(keys)
      ensures forall file :: Approval(file) == old(Approval(file))
      ensures forall file :: Disapproval(file) == old(Disapproval(file)) + if Pad(key) == file then value else 0
    {
      var file := Pad(key);
      var x := if file in candidates then candidates[file] else Candidate(0, 0, key);
      candidates := candidates[file := x.(disapproval := x.disapproval + value)];
    }

    /** Casts the ballots of the stored unspent set. */
    method CountStored(votes: Votes, db: Coins, ghost keys: set<Key>)
      requires candidates == map[] && forall o :: o in db ==> Names(votes(db[o].script), keys)
      modifies this
      ensures Filed(keys)
      ensures forall file :: Approval(file) == StoredFor(votes, db, db.Keys, file)
      ensures forall file :: Disapproval(file) == StoredAgainst(votes, db, db.Keys, file)
    {
      var done: set<OutPoint>, todo := {}, db.Keys;
      while todo != {}
        invariant done !! todo && done + todo == db.Keys && Filed(keys)
        invariant forall file :: Approval(file) == StoredFor(votes, db, done, file)
        invariant forall file :: Disapproval(file) == StoredAgainst(votes, db, done, file)
        decreases todo
      {
        hide StoredFor, StoredAgainst, FiledUnder, Pad, Names, Election.Filed;
        var o :| o in todo;
        StoredNext(votes, db, done, o);
        CastBallot(votes(db[o].script), db[o].amount, keys);
        done, todo := done + {o}, todo - {o};
      }
      assert done == db.Keys;
    }

    /** Casts the ballots of the view's modified entries, those of spent ones negatively. */
    method CountChanges(votes: Votes, v: Entries, ghost keys: set<Key>)
      requires Filed(keys) && forall o :: o in v && v[o].Some? ==> Names(votes(v[o].value.coin.script), keys)
      modifies this
      ensures Filed(keys)
      ensures forall file :: Approval(file) == old(Approval(file)) + ChangedFor(votes, v, v.Keys, file)
      ensures forall file :: Disapproval(file) == old(Disapproval(file)) + ChangedAgainst(votes, v, v.Keys, file)
    {
      var done: set<OutPoint>, todo := {}, v.Keys;
      while todo != {}
        invariant done !! todo && done + todo == v.Keys && Filed(keys)
        invariant forall file :: Approval(file) == old(Approval(file)) + ChangedFor(votes, v, done, file)
        invariant forall file :: Disapproval(file) == old(Disapproval(file)) + ChangedAgainst(votes, v, done, file)
        decreases todo
      {
        hide ChangedFor, ChangedAgainst, Pad, Names, Election.Filed;
        var o :| o in todo;
        ChangedNext(votes, v, done, o);
        if v[o].Some? && v[o].value.modified {
          var e := v[o].value;
          CastBallot(votes(e.coin.script), if e.spent then -e.coin.amount else e.coin.amount, keys);
        }
        done, todo := done + {o}, todo - {o};
      }
      assert done == v.Keys;
    }

    /** The candidate with the highest positive approval, in whatever order they are met;
        the current steward when there is none. */
    method Winner(steward: Key, fast: int, ghost keys: set<Key>) returns (es: ElectionState)
      requires Filed(keys)
      ensures IsWinner(es, steward, fast, keys)
    {
      es := ElectionState(steward, fast);
      var approval := 0;
      var todo := candidates.Keys;
      while todo != {}
        invariant todo <= candidates.Keys && approval >= 0
        invariant forall file :: file in candidates && file !in todo ==> candidates[file].approval <= approval
        invariant approval == 0 ==> es == ElectionState(steward, fast)
        invariant approval > 0 ==> Pad(es.steward) in candidates
        invariant approval > 0 ==> candidates[Pad(es.steward)] == Candidate(approval, es.disapproval, es.steward)
        decreases todo
      {
        var file :| file in todo;
        var c := candidates[file];
        if c.approval > approval {
          es := ElectionState(c.key, c.disapproval);
          approval := c.approval;
        }
        todo := todo - {file};
      }
    }

    ghost predicate IsWinner(es: ElectionState, steward: Key, fast: int, keys: set<Key>)
      reads this
    {
      if forall file :: Approval(file) <= 0 then es == ElectionState(steward, fast)
      else
        && es.steward in keys
        && Approval(Pad(es.steward)) > 0
        && (forall file :: Approval(file) <= Approval(Pad(es.steward)))
        && es.disapproval == Disapproval(Pad(es.steward))
    }
  }

  // ----- one block

  /** The keys that occur in ballots of the stored set or of the view. */
  function KeysOf(votes: Votes, db: Coins, v: Entries): set<Key> {
    BallotKeys(set o | o in db :: votes(db[o].script))
    + BallotKeys(set o | o in v && v[o].Some? :: votes(v[o].value.coin.script))
  }

  function BallotKeys(ballots: set<Ballot>): set<Key> {
    (set b | b in ballots && b.approves.Some? :: b.approves.value)
    + (set b | b in ballots && b.opposes.Some? :: b.opposes.value)
  }

  lemma KeysAreNamed(votes: Votes, db: Coins, v: Entries)
    ensures forall o :: o in db ==> Names(votes(db[o].script), KeysOf(votes, db, v))
    ensures forall o :: o in v && v[o].Some? ==> Names(votes(v[o].value.coin.script), KeysOf(votes, db, v))
  {
    var x, y := set o | o in db :: votes(db[o].script),
                set o | o in v && v[o].Some? :: votes(v[o].value.coin.script);
    forall o | o in db ensures Names(votes(db[o].script), BallotKeys(x)) {
      assert votes(db[o].script) in x;
    }
    forall o | o in v && v[o].Some? ensures Names(votes(v[o].value.coin.script), BallotKeys(y)) {
      assert votes(v[o].value.coin.script) in y;
    }
  }

  /** The kept count: the tip's disapproval and what the view changes about it. */
  ghost function Kept(votes: Votes, tip: ElectionState, v: Entries): int {
    tip.disapproval + Delta(Opposing(votes, tip.steward), v)
  }

  ghost function FileApproval(votes: Votes, db: Coins, v: Entries, file: Key): int {
    Total(ApprovingFile(votes, file), db) + Delta(ApprovingFile(votes, file), v)
  }

  ghost function FileDisapproval(votes: Votes, db: Coins, v: Entries, file: Key): int {
    Total(OpposingFile(votes, file), db) + Delta(OpposingFile(votes, file), v)
  }

  /** The steward stays while the kept disapproval is at most half of all money. */
  ghost predicate Stays(votes: Votes, tip: ElectionState, v: Entries, height: nat) {
    |tip.steward| > 0 && Kept(votes, tip, v) <= Money.Minted(height) / 2
  }

  ghost predicate IsElected(votes: Votes, tip: ElectionState, db: Coins, v: Entries, es: ElectionState) {
    if forall file :: FileApproval(votes, db, v, file) <= 0 then
      es == ElectionState(tip.steward, Kept(votes, tip, v))
    else
      && es.steward in KeysOf(votes, db, v)
      && FileApproval(votes, db, v, Pad(es.steward)) > 0
      && (forall file :: FileApproval(votes, db, v, file) <= FileApproval(votes, db, v, Pad(es.steward)))
      && es.disapproval == FileDisapproval(votes, db, v, Pad(es.steward))
  }

  /** What election processing of one block may return. */
  ghost predicate Processed(votes: Votes, tip: ElectionState, db: Coins, v: Entries, height: nat, es: ElectionState) {
    if Stays(votes, tip, v, height) then es == ElectionState(tip.steward, Kept(votes, tip, v))
    else IsElected(votes, tip, db, v, es)
  }

  method KeptDisapproval(votes: Votes, tip: ElectionState, v: Entries) returns (disapproval: int)
    ensures disapproval == Kept(votes, tip, v)
  {
    disapproval := tip.disapproval;
    ghost var f := ChangeWorth(Opposing(votes, tip.steward), v);
    var todo := v.Keys;
    assert v.Keys - todo == {};
    while todo != {}
      invariant todo <= v.Keys
      invariant disapproval == tip.disapproval + SumOver(v.Keys - todo, f)
      decreases todo
    {
      var o :| o in todo;
      ghost var done := v.Keys - (todo - {o});
      assert done - {o} == v.Keys - todo;
      SumSplit(done, o, f);
      if v[o].Some? && v[o].value.modified {
        var e := v[o].value;
        if votes(e.coin.script).opposes == Some(tip.steward) {
          disapproval := if e.spent then disapproval - e.coin.amount else disapproval + e.coin.amount;
        }
      }
      todo := todo - {o};
    }
    assert v.Keys - todo == v.Keys;
  }

  method ElectionProcessBlock(votes: Votes, tip: ElectionState, db: Coins, v: Entries, height: nat)
    returns (es: ElectionState)
    ensures Processed(votes, tip, db, v, height, es)
  {
    var disapproval := KeptDisapproval(votes, tip, v);
    var money := Money.PktCalcTotalMoney(height);
    if |tip.steward| > 0 && disapproval <= money / 2 { return ElectionState(tip.steward, disapproval); }
    es := FullElection(votes, tip, db, v, disapproval);
  }

  /** Counts every ballot of the stored set and of the view. */
  method FullElection(votes: Votes, tip: ElectionState, db: Coins, v: Entries, kept: int) returns (es: ElectionState)
    requires kept == Kept(votes, tip, v)
    ensures IsElected(votes, tip, db, v, es)
  {
    ghost var keys := KeysOf(votes, db, v);
    KeysAreNamed(votes, db, v);
    hide KeysOf, Kept, Names, Pad, Election.Filed;
    var elect := new Election();
    elect.CountStored(votes, db, keys);
    elect.CountChanges(votes, v, keys);
    assert forall file :: elect.Approval(file) == FileApproval(votes, db, v, file);
    assert forall file :: elect.Disapproval(file) == FileDisapproval(votes, db, v, file);
    hide FileApproval, FileDisapproval, Election.Approval, Election.Disapproval;
    es := elect.Winner(tip.steward, kept, keys);
  }
}
