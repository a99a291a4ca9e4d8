/** When the kept disapproval and the full election agree with a recount. */
module ElectionTally {
  import opened Options
  import opened Ledger
  import opened UtxoViews
  import opened ChainStore
  import opened Elections
  import Money

  /** The recount: the disapproval of a state is what the coins opposing its steward add up to. */
  ghost predicate Exact(votes: Votes, es: ElectionState, u: Coins) {
    es.disapproval == Total(Opposing(votes, es.steward), u)
  }

  // ----- the kept count

  /** The kept count is right exactly when outputs wrongly taken away and outputs wrongly
      added cancel out. */
  lemma KeptIsExactIff(votes: Votes, tip: ElectionState, db: Coins, v: Entries, u: Coins)
    requires Exact(votes, tip, db) && Regular(db, v) && Shows(db, v, u, {})
    ensures var w := Opposing(votes, tip.steward);
            Kept(votes, tip, v) == Total(w, u) <==> Total(w, Transient(db, v)) == Total(w, Repeated(db, v))
  {
    ChangesBalance(Opposing(votes, tip.steward), db, v, u);
  }

  predicate NoNegative(u: Coins) { forall o :: o in u ==> u[o].amount >= 0 }

  /** Some output that is created and spent within the block opposes the steward. */
  ghost predicate OpposedInPassing(votes: Votes, steward: Key, db: Coins, v: Entries) {
    exists o :: o in Transient(db, v) && Opposing(votes, steward)(Transient(db, v)[o]) > 0
  }

  lemma {:induction false} NoCoinsNoWorth(w: Weight, u: Coins)
    requires forall o :: o in u ==> w(u[o]) >= 0
    ensures Total(w, u) == 0 <==> forall o :: o in u ==> w(u[o]) == 0
  {
    SumPositive(u.Keys, StoredWorth(w, u));
    if Total(w, u) == 0 {
      forall o | o in u ensures w(u[o]) == 0 {
        assert StoredWorth(w, u)(o) == 0;
      }
    }
  }

  /** For a block connected through a new view, the kept disapproval equals the recount of
      the connected set exactly when no output created and spent within the block opposes
      the steward. */
  lemma BlockTallyIff(votes: Votes, tip: ElectionState, db: Coins, v1: Entries, b: Block, height: nat)
    requires Exact(votes, tip, db) && Fetched(db, map[], v1, b, height) && CanConnect(db, b, height) && FreshIds(db, b)
    requires ConnectedBlock(v1, b, height).Some?
             && NoNegative(Transient(db, ConnectedBlock(v1, b, height).value.entries))
    ensures var v := ConnectedBlock(v1, b, height).value.entries;
            Kept(votes, tip, v) == Total(Opposing(votes, tip.steward), Connect(db, b, height))
            <==> !OpposedInPassing(votes, tip.steward, db, v)
  {
    hide ConnectedBlock, Fetched, CanConnect, FreshIds, Connect, Shows, Regular, Total, Kept;
    var v := ConnectedBlock(v1, b, height).value.entries;
    var w := Opposing(votes, tip.steward);
    ViewConnects(db, map[], v1, b, height);
    NewViewIsPlain(db, v1, b, height);
    assert Repeated(db, v) == map[];
    KeptIsExactIff(votes, tip, db, v, Connect(db, b, height));
    NoCoinsNoWorth(w, Repeated(db, v));
    NoCoinsNoWorth(w, Transient(db, v));
  }

  // ----- the full count

  /** Coins without a ballot. */
  predicate Silent(votes: Votes, u: Coins) { forall o :: o in u ==> votes(u[o].script) == Ballot(None, None) }

  /** Among the keys that occur, only equal ones are filed together. */
  predicate PadInjective(keys: set<Key>) { forall a, b :: a in keys && b in keys && Pad(a) == Pad(b) ==> a == b }

  lemma SilentIsWorthless(votes: Votes, u: Coins, k: Key)
    requires Silent(votes, u)
    ensures Total(Opposing(votes, k), u) == 0 && Total(Approving(votes, k), u) == 0
  {
    NoCoinsNoWorth(Opposing(votes, k), u);
    NoCoinsNoWorth(Approving(votes, k), u);
  }

  /** When every voting change is exact, the changes take the stored total to the new one. */
  lemma ChangesAreExact(votes: Votes, db: Coins, v: Entries, u: Coins, k: Key)
    requires Regular(db, v) && Shows(db, v, u, {})
    requires Silent(votes, Transient(db, v)) && Silent(votes, Repeated(db, v))
    ensures Total(Opposing(votes, k), db) + Delta(Opposing(votes, k), v) == Total(Opposing(votes, k), u)
    ensures Total(Approving(votes, k), db) + Delta(Approving(votes, k), v) == Total(Approving(votes, k), u)
  {
    ChangesBalance(Opposing(votes, k), db, v, u);
    ChangesBalance(Approving(votes, k), db, v, u);
    SilentIsWorthless(votes, Transient(db, v), k);
    SilentIsWorthless(votes, Repeated(db, v), k);
  }

  lemma {:induction false} SumSame(s: set<OutPoint>, f: OutPoint -> int, g: OutPoint -> int)
    requires forall x :: x in s ==> f(x) == g(x)
    ensures SumOver(s, f) == SumOver(s, g)
    decreases s
  {
    if x :| x in s {
      SumSplit(s, x, f);
      SumSplit(s, x, g);
      SumSame(s - {x}, f, g);
    }
  }

  /** A file then counts exactly the votes for its key. */
  lemma FileIsKey(votes: Votes, db: Coins, v: Entries, k: Key)
    requires PadInjective(KeysOf(votes, db, v)) && k in KeysOf(votes, db, v)
    ensures FileApproval(votes, db, v, Pad(k)) == Total(Approving(votes, k), db) + Delta(Approving(votes, k), v)
    ensures FileDisapproval(votes, db, v, Pad(k)) == Total(Opposing(votes, k), db) + Delta(Opposing(votes, k), v)
  {
    KeysAreNamed(votes, db, v);
    hide KeysOf, Pad;
    SumSame(db.Keys, StoredWorth(ApprovingFile(votes, Pad(k)), db), StoredWorth(Approving(votes, k), db));
    SumSame(db.Keys, StoredWorth(OpposingFile(votes, Pad(k)), db), StoredWorth(Opposing(votes, k), db));
    SumSame(v.Keys, ChangeWorth(ApprovingFile(votes, Pad(k)), v), ChangeWorth(Approving(votes, k), v));
    SumSame(v.Keys, ChangeWorth(OpposingFile(votes, Pad(k)), v), ChangeWorth(Opposing(votes, k), v));
  }

  /** Nobody votes for a key that does not occur. */
  lemma UnnamedKey(votes: Votes, db: Coins, v: Entries, k: Key)
    requires k !in KeysOf(votes, db, v)
    ensures Total(Approving(votes, k), db) + Delta(Approving(votes, k), v) == 0
  {
    KeysAreNamed(votes, db, v);
    hide KeysOf;
    SumPositive(db.Keys, StoredWorth(Approving(votes, k), db));
    SumPositive(v.Keys, ChangeWorth(Approving(votes, k), v));
  }

  lemma ApprovalBelow(votes: Votes, db: Coins, v: Entries, k: Key, bound: int)
    requires PadInjective(KeysOf(votes, db, v)) && bound >= 0
    requires forall file :: FileApproval(votes, db, v, file) <= bound
    ensures Total(Approving(votes, k), db) + Delta(Approving(votes, k), v) <= bound
  {
    if k in KeysOf(votes, db, v) {
      FileIsKey(votes, db, v, k);
      assert FileApproval(votes, db, v, Pad(k)) <= bound;
    } else {
      UnnamedKey(votes, db, v, k);
    }
  }

  /** k has at least as much approval as anyone, and some at all. */
  ghost predicate MostApproved(votes: Votes, u: Coins, k: Key) {
    && Total(Approving(votes, k), u) > 0
    && forall other :: Total(Approving(votes, other), u) <= Total(Approving(votes, k), u)
  }

  /** A full election returns the recounted disapproval of its winner, and a winner of
      maximal positive approval; the steward stays when nobody has any. */
  lemma ElectionIsExact(votes: Votes, tip: ElectionState, db: Coins, v: Entries, u: Coins, es: ElectionState)
    requires Exact(votes, tip, db) && Regular(db, v) && Shows(db, v, u, {})
    requires Silent(votes, Transient(db, v)) && Silent(votes, Repeated(db, v))
    requires PadInjective(KeysOf(votes, db, v)) && IsElected(votes, tip, db, v, es)
    ensures Exact(votes, es, u)
    ensures MostApproved(votes, u, es.steward)
         || (es.steward == tip.steward && forall k :: Total(Approving(votes, k), u) <= 0)
  {
    hide Total, Regular, Shows, KeysOf, Delta, FileApproval, FileDisapproval;
    ChangesAreExact(votes, db, v, u, es.steward);
    var nobody := forall file :: FileApproval(votes, db, v, file) <= 0;
    if !nobody { FileIsKey(votes, db, v, es.steward); }
    var bound := if nobody then 0 else FileApproval(votes, db, v, Pad(es.steward));
    forall k ensures Total(Approving(votes, k), u) <= bound {
      ChangesAreExact(votes, db, v, u, k);
      ApprovalBelow(votes, db, v, k, bound);
    }
  }

  /** The rule of the election, on the recount alone: a steward opposed by at most half of all
      money stays; one opposed by more, or none at all, gives way to a candidate of maximal
      approval, unless nobody has any. */
  lemma MajorityRules(votes: Votes, tip: ElectionState, db: Coins, v: Entries, height: nat, es: ElectionState, u: Coins)
    requires Exact(votes, tip, db) && Regular(db, v) && Shows(db, v, u, {}) && Processed(votes, tip, db, v, height, es)
    requires Silent(votes, Transient(db, v)) && Silent(votes, Repeated(db, v)) && PadInjective(KeysOf(votes, db, v))
    ensures var opposed := 2 * Total(Opposing(votes, tip.steward), u) > Money.Minted(height);
            && (tip.steward != [] && !opposed ==> es.steward == tip.steward)
            && (tip.steward == [] || opposed ==>
                  || MostApproved(votes, u, es.steward)
                  || (es.steward == tip.steward && forall k :: Total(Approving(votes, k), u) <= 0))
            && es.disapproval == Total(Opposing(votes, es.steward), u)
  {
    hide Total, Regular, Shows, KeysOf, IsElected, Silent, PadInjective, Delta, MostApproved;
    ChangesAreExact(votes, db, v, u, tip.steward);
    if !Stays(votes, tip, v, height) {
      ElectionIsExact(votes, tip, db, v, u, es);
    }
  }

  // ----- one block, exactly

  /** Opposition to other keys that are filed together with k. */
  function Clashing(votes: Votes, k: Key): Weight {
    (c: Coin) =>
      if FiledUnder(votes(c.script).opposes, Pad(k)) && votes(c.script).opposes != Some(k) then c.amount else 0
  }

  lemma FileSplits(votes: Votes, k: Key, u: Coins)
    ensures Total(OpposingFile(votes, Pad(k)), u) == Total(Opposing(votes, k), u) + Total(Clashing(votes, k), u)
  {
    var a, b, c := OpposingFile(votes, Pad(k)), Opposing(votes, k), Clashing(votes, k);
    var all, own, other := StoredWorth(a, u), StoredWorth(b, u), StoredWorth(c, u);
    forall o | o in u.Keys ensures all(o) == own(o) + other(o) + own(o) - own(o) {
      var choice := votes(u[o].script).opposes;
      if choice == Some(k) { assert choice.value == k; }
      assert all(o) == a(u[o]) && own(o) == b(u[o]) && other(o) == c(u[o]);
    }
    SumLinear(u.Keys, all, own, other, own, own);
  }

  /** The steward is kept: they stay, or the election finds nobody. */
  ghost predicate Keeps(votes: Votes, tip: ElectionState, db: Coins, v: Entries, height: nat) {
    Stays(votes, tip, v, height) || forall file :: FileApproval(votes, db, v, file) <= 0
  }

  /** What must balance for the new state to be right, given the outputs created and spent in
      passing, those counted again, and the new unspent set. */
  ghost predicate Balanced(votes: Votes, kept: bool, steward: Key, passing: Coins, again: Coins, u: Coins) {
    if kept then
      Total(Opposing(votes, steward), passing) == Total(Opposing(votes, steward), again)
    else
      var w := OpposingFile(votes, Pad(steward));
      Total(w, passing) == Total(w, again) + Total(Clashing(votes, steward), u)
  }

  /** After any block, whichever way its state was found, the state agrees with the recount
      exactly when the miscounted outputs balance. */
  lemma StateIsExactIff(votes: Votes, tip: ElectionState, db: Coins, v: Entries, height: nat, es: ElectionState,
                        u: Coins)
    requires Exact(votes, tip, db) && Regular(db, v) && Shows(db, v, u, {}) && Processed(votes, tip, db, v, height, es)
    ensures Exact(votes, es, u) <==>
            Balanced(votes, Keeps(votes, tip, db, v, height), es.steward, Transient(db, v), Repeated(db, v), u)
  {
    hide Total, Regular, Shows, KeysOf, Delta, Pad;
    ChangesBalance(Opposing(votes, tip.steward), db, v, u);
    ChangesBalance(OpposingFile(votes, Pad(es.steward)), db, v, u);
    FileSplits(votes, es.steward, u);
  }

  /** Every key on a ballot has 1 to 79 bytes. */
  ghost predicate ShortKeys(votes: Votes) {
    forall script :: ShortKey(votes(script).approves) && ShortKey(votes(script).opposes)
  }

  /** Some coin opposes another key that differs from k only in zero bytes at the end. */
  predicate Mistaken(votes: Votes, k: Key, u: Coins) {
    exists o :: o in u && u[o].amount > 0 && votes(u[o].script).opposes.Some? &&
                votes(u[o].script).opposes.value != k && Strip(votes(u[o].script).opposes.value) == Strip(k)
  }

  lemma MistakenIffClash(votes: Votes, k: Key, u: Coins)
    requires ShortKeys(votes) && |k| < 80 && NoNegative(u)
    ensures Total(Clashing(votes, k), u) == 0 <==> !Mistaken(votes, k, u)
  {
    forall o | o in u && votes(u[o].script).opposes.Some?
      ensures FiledUnder(votes(u[o].script).opposes, Pad(k)) <==> Strip(votes(u[o].script).opposes.value) == Strip(k)
    {
      assert ShortKey(votes(u[o].script).opposes);
      PadClashesIff(votes(u[o].script).opposes.value, k);
    }
    hide Pad, Strip, ShortKeys;
    NoCoinsNoWorth(Clashing(votes, k), u);
  }

  /** A newly elected state is exact, when no vote was made in passing or counted again,
      exactly if nobody opposes a key that is mistaken for the winner's. */
  lemma ElectedIsExactIff(votes: Votes, tip: ElectionState, db: Coins, v: Entries, height: nat, es: ElectionState,
                          u: Coins)
    requires Exact(votes, tip, db) && Regular(db, v) && Shows(db, v, u, {}) && Processed(votes, tip, db, v, height, es)
    requires !Keeps(votes, tip, db, v, height) && ShortKeys(votes) && |es.steward| < 80 && NoNegative(u)
    requires Silent(votes, Transient(db, v)) && Silent(votes, Repeated(db, v))
    ensures Exact(votes, es, u) <==> !Mistaken(votes, es.steward, u)
  {
    hide Total, Regular, Shows, KeysOf, Delta, Pad, Processed, Keeps, Exact, Mistaken, ShortKeys;
    StateIsExactIff(votes, tip, db, v, height, es, u);
    MistakenIffClash(votes, es.steward, u);
    NoCoinsNoWorth(OpposingFile(votes, Pad(es.steward)), Transient(db, v));
    NoCoinsNoWorth(OpposingFile(votes, Pad(es.steward)), Repeated(db, v));
  }

  // ----- every run of blocks

  datatype Step = Step(v: Entries, height: nat, es: ElectionState, u: Coins)

  function TipAt(tip: ElectionState, steps: seq<Step>, i: nat): ElectionState
    requires i <= |steps|
  {
    if i == 0 then tip else steps[i - 1].es
  }

  function CoinsAt(db: Coins, steps: seq<Step>, i: nat): Coins
    requires i <= |steps|
  {
    if i == 0 then db else steps[i - 1].u
  }

  /** Each step shows its unspent set through a view of the previous one and returns an
      election state for it. */
  ghost predicate IsRun(votes: Votes, tip: ElectionState, db: Coins, steps: seq<Step>) {
    forall i :: 0 <= i < |steps| ==> IsStep(votes, TipAt(tip, steps, i), CoinsAt(db, steps, i), steps[i])
  }

  ghost predicate IsStep(votes: Votes, tip: ElectionState, db: Coins, s: Step) {
    Regular(db, s.v) && Shows(db, s.v, s.u, {}) && Processed(votes, tip, db, s.v, s.height, s.es)
  }

  ghost predicate ExactUpTo(votes: Votes, steps: seq<Step>, n: nat)
    requires n <= |steps|
  {
    forall i :: 0 <= i < n ==> Exact(votes, steps[i].es, steps[i].u)
  }

  ghost predicate BalancedStep(votes: Votes, tip: ElectionState, db: Coins, s: Step) {
    Balanced(votes, Keeps(votes, tip, db, s.v, s.height), s.es.steward, Transient(db, s.v), Repeated(db, s.v), s.u)
  }

  ghost predicate BalancedUpTo(votes: Votes, tip: ElectionState, db: Coins, steps: seq<Step>, n: nat)
    requires n <= |steps|
  {
    forall i :: 0 <= i < n ==> BalancedStep(votes, TipAt(tip, steps, i), CoinsAt(db, steps, i), steps[i])
  }

  /** Over every run from an exact state, the incrementally kept tally agrees with a recount
      after each of the first n blocks exactly when each of them balances. */
  lemma {:induction false} RunIsExactIff(votes: Votes, tip: ElectionState, db: Coins, steps: seq<Step>, n: nat)
    requires Exact(votes, tip, db) && IsRun(votes, tip, db, steps) && n <= |steps|
    ensures ExactUpTo(votes, steps, n) <==> BalancedUpTo(votes, tip, db, steps, n)
  {
    hide Exact, BalancedStep, IsStep;
    if n > 0 {
      RunIsExactIff(votes, tip, db, steps, n - 1);
      if ExactUpTo(votes, steps, n - 1) {
        var t, u, s := TipAt(tip, steps, n - 1), CoinsAt(db, steps, n - 1), steps[n - 1];
        assert IsStep(votes, t, u, s);
        assert Exact(votes, t, u) by { assert n == 1 || Exact(votes, steps[n - 2].es, steps[n - 2].u); }
        StepIsExactIff(votes, t, u, s);
      }
    }
  }

  lemma StepIsExactIff(votes: Votes, tip: ElectionState, db: Coins, s: Step)
    requires Exact(votes, tip, db) && IsStep(votes, tip, db, s)
    ensures Exact(votes, s.es, s.u) <==> BalancedStep(votes, tip, db, s)
  {
    StateIsExactIff(votes, tip, db, s.v, s.height, s.es, s.u);
  }

  /** In particular it always agrees while no vote is made in passing or counted again and no
      two keys are filed together. */
  lemma RunStaysExact(votes: Votes, tip: ElectionState, db: Coins, steps: seq<Step>)
    requires Exact(votes, tip, db) && IsRun(votes, tip, db, steps)
    requires forall i :: 0 <= i < |steps| ==> IsClean(votes, CoinsAt(db, steps, i), steps[i])
    ensures ExactUpTo(votes, steps, |steps|)
  {
    forall i | 0 <= i < |steps| ensures BalancedStep(votes, TipAt(tip, steps, i), CoinsAt(db, steps, i), steps[i]) {
      assert IsStep(votes, TipAt(tip, steps, i), CoinsAt(db, steps, i), steps[i]);
      CleanBalances(votes, TipAt(tip, steps, i), CoinsAt(db, steps, i), steps[i]);
    }
    RunIsExactIff(votes, tip, db, steps, |steps|);
  }

  ghost predicate IsClean(votes: Votes, db: Coins, s: Step) {
    Silent(votes, Transient(db, s.v)) && Silent(votes, Repeated(db, s.v)) && PadInjective(KeysOf(votes, db, s.v))
  }

  lemma CleanBalances(votes: Votes, tip: ElectionState, db: Coins, s: Step)
    requires IsStep(votes, tip, db, s) && IsClean(votes, db, s)
    ensures BalancedStep(votes, tip, db, s)
  {
    hide KeysOf, Pad, Total, Regular, Transient, Repeated, FileApproval, Stays, FileDisapproval, Kept, PadInjective;
    SilentFiles(votes, Transient(db, s.v), s.es.steward);
    SilentFiles(votes, Repeated(db, s.v), s.es.steward);
    if !Keeps(votes, tip, db, s.v, s.height) {
      NoClash(votes, db, s.v, s.u, s.es.steward);
    }
  }

  lemma SilentFiles(votes: Votes, u: Coins, k: Key)
    requires Silent(votes, u)
    ensures Total(Opposing(votes, k), u) == 0 && Total(OpposingFile(votes, Pad(k)), u) == 0
  {
    NoCoinsNoWorth(Opposing(votes, k), u);
    NoCoinsNoWorth(OpposingFile(votes, Pad(k)), u);
  }

  lemma NoClash(votes: Votes, db: Coins, v: Entries, u: Coins, k: Key)
    requires Shows(db, v, u, {}) && PadInjective(KeysOf(votes, db, v)) && k in KeysOf(votes, db, v)
    ensures Total(Clashing(votes, k), u) == 0
  {
    NewCoinsAreNamed(votes, db, v, u);
    hide KeysOf, Pad, Shows;
    NoCoinsNoWorth(Clashing(votes, k), u);
  }

  lemma NewCoinsAreNamed(votes: Votes, db: Coins, v: Entries, u: Coins)
    requires Shows(db, v, u, {})
    ensures forall o :: o in u ==> Names(votes(u[o].script), KeysOf(votes, db, v))
  {
    KeysAreNamed(votes, db, v);
    hide KeysOf, Names;
    forall o | o in u ensures Names(votes(u[o].script), KeysOf(votes, db, v)) {
      assert LookAt(db, v, o) == Get(u, o);
    }
  }

  // ----- where keys clash

  /** Votes against a key followed by a zero byte are held against the candidate with the
      shorter key. */
  lemma ClashingKeysAreMixed(votes: Votes, k: Key, o: OutPoint, p: OutPoint, yes: Coin, no: Coin, es: ElectionState,
                             tip: ElectionState)
    requires 0 < |k| < 79 && o != p && yes.amount > 0 && no.amount > 0
    requires votes(yes.script) == Ballot(Some(k), None) && votes(no.script) == Ballot(None, Some(k + [0]))
    requires IsElected(votes, tip, map[o := yes, p := no], map[], es) && es.steward == k
    ensures es.disapproval == no.amount && Total(Opposing(votes, k), map[o := yes, p := no]) == 0
  {
    var db: Coins := map[o := yes, p := no];
    assert Pad(k) == Pad(k + [0]);
    TwoCoins(ApprovingFile(votes, Pad(k)), o, yes, p, no);
    TwoCoins(OpposingFile(votes, Pad(k)), o, yes, p, no);
    TwoCoins(Opposing(votes, k), o, yes, p, no);
    assert FileApproval(votes, db, map[], Pad(k)) == yes.amount;
  }

  lemma TwoCoins(w: Weight, o: OutPoint, a: Coin, p: OutPoint, b: Coin)
    requires o != p
    ensures Total(w, map[o := a, p := b]) == w(a) + w(b)
  {
    var db: Coins := map[o := a, p := b];
    SumSplit(db.Keys, o, StoredWorth(w, db));
    SumSplit(db.Keys - {o}, p, StoredWorth(w, db));
    assert db.Keys - {o} - {p} == {};
  }
}
