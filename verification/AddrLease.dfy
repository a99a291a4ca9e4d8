/** Handing out addresses while the lock is dropped around the caller's own check: the steps
    of any number of threads inside the address manager, in any order.

    Entry stands for one KnownAddress object.  Each step reads the clock anew, so time may
    pass between any two steps, also while a thread holds the lock. */
module AddrLeases {
  import opened Options

  type Thread = nat
  type Entry = nat

  const LEASE := 60

  /** Where a thread is. */
  datatype Pc =
    | Outside
    | Scanning                        // holds the lock, looking for an address
    | Passed(entry: Entry)            // holds the lock, the first check has passed
    | Asking(entry: Entry)            // without the lock, calling isOk
    | Answered(entry: Entry, ok: bool) // without the lock, waiting to get it back
    | Rechecking(entry: Entry, ok: bool) // holds the lock again
    | Chosen(entry: Entry)            // holds the lock, the second check has passed
    | Leaving                         // holds the lock, done
    | Marking(entry: Entry)           // holds the lock, in Good or another call that stamps

  predicate InLock(pc: Pc) { !(pc.Outside? || pc.Asking? || pc.Answered?) }

  datatype Grant = Grant(entry: Entry, time: int)

  datatype State = State(
    now: int,
    owner: Option<Thread>,
    pc: map<Thread, Pc>,
    lastAttempt: map<Entry, int>,
    grants: seq<Grant>)

  datatype Action =
    | Tick(elapsed: nat)
    | Lock(thread: Thread)
    | LockToMark(thread: Thread, entry: Entry)
    | Look(thread: Thread, entry: Entry)
    | Unlock(thread: Thread)
    | Answer(thread: Thread, ok: bool)
    | Relock(thread: Thread)
    | Look2(thread: Thread)
    | Stamp(thread: Thread)
    | Mark(thread: Thread)
    | GiveUp(thread: Thread)
    | Leave(thread: Thread)

  predicate Recent(s: State, e: Entry)
    requires e in s.lastAttempt
  {
    s.lastAttempt[e] + LEASE > s.now
  }

  function PcOf(s: State, t: Thread): Pc { if t in s.pc then s.pc[t] else Outside }

  predicate Enabled(s: State, a: Action) {
    match a
    case Tick(_) => true
    case Lock(t) => s.owner == None && PcOf(s, t) == Outside
    case LockToMark(t, e) => s.owner == None && PcOf(s, t) == Outside && e in s.lastAttempt
    case Look(t, e) => PcOf(s, t) == Scanning && e in s.lastAttempt
    case Unlock(t) => PcOf(s, t).Passed?
    case Answer(t, _) => PcOf(s, t).Asking?
    case Relock(t) => s.owner == None && PcOf(s, t).Answered?
    case Look2(t) => PcOf(s, t).Rechecking? && PcOf(s, t).entry in s.lastAttempt
    case Stamp(t) => PcOf(s, t).Chosen?
    case Mark(t) => PcOf(s, t).Marking?
    case GiveUp(t) => PcOf(s, t) == Scanning
    case Leave(t) => PcOf(s, t) == Leaving
  }

  function Goto(s: State, t: Thread, pc: Pc): State { s.(pc := s.pc[t := pc]) }

  function Step(s: State, a: Action): State
    requires Enabled(s, a)
  {
    match a
    case Tick(elapsed) => s.(now := s.now + elapsed)
    case Lock(t) => Goto(s, t, Scanning).(owner := Some(t))
    case LockToMark(t, e) => Goto(s, t, Marking(e)).(owner := Some(t))
    case Look(t, e) => if Recent(s, e) then s else Goto(s, t, Passed(e))
    case Unlock(t) => Goto(s, t, Asking(PcOf(s, t).entry)).(owner := None)
    case Answer(t, ok) => Goto(s, t, Answered(PcOf(s, t).entry, ok))
    case Relock(t) => Goto(s, t, Rechecking(PcOf(s, t).entry, PcOf(s, t).ok)).(owner := Some(t))
    case Look2(t) =>
      var e := PcOf(s, t).entry;
      if !PcOf(s, t).ok || Recent(s, e) then Goto(s, t, Scanning) else Goto(s, t, Chosen(e))
    case Stamp(t) =>
      var e := PcOf(s, t).entry;
      Goto(s, t, Leaving).(lastAttempt := s.lastAttempt[e := s.now], grants := s.grants + [Grant(e, s.now)])
    case Mark(t) => Goto(s, t, Leaving).(lastAttempt := s.lastAttempt[PcOf(s, t).entry := s.now])
    case GiveUp(t) => Goto(s, t, Leaving)
    case Leave(t) => Goto(s, t, Outside).(owner := None)
  }

  // ----- what every step keeps

  predicate OneInside(s: State) { forall t :: t in s.pc && InLock(s.pc[t]) ==> s.owner == Some(t) }

  predicate NoFutureStamps(s: State) { forall e :: e in s.lastAttempt ==> s.lastAttempt[e] <= s.now }

  /** Whoever has passed the second check still may: nobody else can stamp in between. */
  predicate ChoicesAreFree(s: State) {
    forall t :: t in s.pc && s.pc[t].Chosen? ==>
      s.pc[t].entry in s.lastAttempt && s.lastAttempt[s.pc[t].entry] + LEASE <= s.now
  }

  /** Every grant left a stamp that is at least as late. */
  predicate GrantsAreStamped(s: State) {
    forall i :: 0 <= i < |s.grants| ==>
      s.grants[i].entry in s.lastAttempt && s.grants[i].time <= s.lastAttempt[s.grants[i].entry]
  }

  /** No entry is granted twice within a minute. */
  predicate GrantsAreSpaced(grants: seq<Grant>) {
    forall i, j :: 0 <= i < j < |grants| && grants[i].entry == grants[j].entry ==>
      grants[i].time + LEASE <= grants[j].time
  }

  predicate Kept(s: State) {
    OneInside(s) && NoFutureStamps(s) && ChoicesAreFree(s) && GrantsAreStamped(s) && GrantsAreSpaced(s.grants)
  }

  lemma StepKeeps(s: State, a: Action)
    requires Kept(s) && Enabled(s, a)
    ensures Kept(Step(s, a))
  {
    if a.Stamp? {
      StampKeeps(s, a.thread);
    } else if a.Mark? {
      var r := Step(s, a);
      assert r.grants == s.grants;
    }
  }

  lemma StampKeeps(s: State, t: Thread)
    requires Kept(s) && PcOf(s, t).Chosen?
    ensures Kept(Step(s, Stamp(t)))
  {
    var e, r := PcOf(s, t).entry, Step(s, Stamp(t));
    assert s.lastAttempt[e] + LEASE <= s.now;
    forall i | 0 <= i < |s.grants| && s.grants[i].entry == e ensures s.grants[i].time + LEASE <= s.now {
      assert s.grants[i].time <= s.lastAttempt[e];
    }
    forall i | 0 <= i < |r.grants|
      ensures r.grants[i].entry in r.lastAttempt && r.grants[i].time <= r.lastAttempt[r.grants[i].entry]
    {
      if i < |s.grants| { assert r.grants[i] == s.grants[i]; }
    }
  }

  // ----- every run

  predicate CanRun(s: State, actions: seq<Action>)
    decreases actions
  {
    actions == [] || (Enabled(s, actions[0]) && CanRun(Step(s, actions[0]), actions[1..]))
  }

  function Run(s: State, actions: seq<Action>): State
    requires CanRun(s, actions)
    decreases actions
  {
    if actions == [] then s else Run(Step(s, actions[0]), actions[1..])
  }

  /** All threads outside, nothing granted, no stamp in the future. */
  predicate Initial(s: State) {
    s.owner == None && s.pc == map[] && s.grants == [] && NoFutureStamps(s)
  }

  lemma {:induction false} RunKeeps(s: State, actions: seq<Action>)
    requires Kept(s) && CanRun(s, actions)
    ensures Kept(Run(s, actions))
    decreases actions
  {
    if actions != [] {
      StepKeeps(s, actions[0]);
      RunKeeps(Step(s, actions[0]), actions[1..]);
    }
  }

  /** However the steps of the threads interleave and whatever isOk answers, two grants of
      the same entry are at least a minute apart. */
  lemma NeverGrantedTwice(s: State, actions: seq<Action>)
    requires Initial(s) && CanRun(s, actions)
    ensures var grants := Run(s, actions).grants;
            forall i, j :: 0 <= i < j < |grants| && grants[i].entry == grants[j].entry ==>
              grants[i].time + 60 <= grants[j].time
  {
    RunKeeps(s, actions);
  }

  /** After a minute an entry can be had again: some run grants it now. */
  lemma GrantedAfterAMinute(s: State, e: Entry, t: Thread)
    requires Initial(s) && e in s.lastAttempt && s.lastAttempt[e] + 60 <= s.now
    ensures exists actions :: CanRun(s, actions) && Run(s, actions).grants == [Grant(e, s.now)]
  {
    GetsToAsk(s, e, t);
    var mid := Run(s, Probe(t, e));
    GetsGrant(mid, e, t);
    RunAppend(s, Probe(t, e), Take(t));
  }

  function Take(t: Thread): seq<Action> { [Answer(t, true), Relock(t), Look2(t), Stamp(t)] }

  lemma GetsGrant(s: State, e: Entry, t: Thread)
    requires s.owner == None && PcOf(s, t) == Asking(e) && e in s.lastAttempt && !Recent(s, e)
    ensures CanRun(s, Take(t)) && Run(s, Take(t)).grants == s.grants + [Grant(e, s.now)]
  {
    var a := Step(s, Answer(t, true));
    var b := Step(a, Relock(t));
    var c := Step(b, Look2(t));
    var d := Step(c, Stamp(t));
    var p := Take(t);
    assert p[1..] == [Relock(t), Look2(t), Stamp(t)] && p[1..][1..] == [Look2(t), Stamp(t)];
    assert p[1..][1..][1..] == [Stamp(t)] && [Stamp(t)][1..] == [];
    assert CanRun(d, []) && Run(d, []) == d;
    assert CanRun(c, [Stamp(t)]) && Run(c, [Stamp(t)]) == d;
    assert CanRun(b, [Look2(t), Stamp(t)]) && Run(b, [Look2(t), Stamp(t)]) == d;
  }

  // ----- why the second check is needed

  /** Two threads can both pass the first check for one entry, so both can hold it while
      calling isOk. */
  lemma FirstCheckIsNotEnough(s: State, e: Entry, t: Thread, u: Thread)
    requires Initial(s) && e in s.lastAttempt && !Recent(s, e) && t != u
    ensures exists actions ::
              && CanRun(s, actions) && PcOf(Run(s, actions), t) == Asking(e)
              && PcOf(Run(s, actions), u) == Asking(e)
  {
    GetsToAsk(s, e, t);
    var mid := Run(s, Probe(t, e));
    GetsToAsk(mid, e, u);
    RunAppend(s, Probe(t, e), Probe(u, e));
  }

  function Probe(t: Thread, e: Entry): seq<Action> { [Lock(t), Look(t, e), Unlock(t)] }

  lemma GetsToAsk(s: State, e: Entry, t: Thread)
    requires s.owner == None && PcOf(s, t) == Outside && e in s.lastAttempt && !Recent(s, e)
    ensures CanRun(s, Probe(t, e)) && Run(s, Probe(t, e)) == Goto(s, t, Asking(e))
  {
    var a := Step(s, Lock(t));
    var b := Step(a, Look(t, e));
    var c := Step(b, Unlock(t));
    assert c == Goto(s, t, Asking(e));
    var p := Probe(t, e);
    assert p[1..] == [Look(t, e), Unlock(t)] && p[1..][1..] == [Unlock(t)] && p[1..][1..][1..] == [];
    assert CanRun(b, [Unlock(t)]) && Run(b, [Unlock(t)]) == c;
  }

  lemma {:induction false} RunAppend(s: State, p: seq<Action>, q: seq<Action>)
    requires CanRun(s, p) && CanRun(Run(s, p), q)
    ensures CanRun(s, p + q) && Run(s, p + q) == Run(Run(s, p), q)
    decreases p
  {
    if p == [] {
      assert p + q == q;
    } else {
      RunAppend(Step(s, p[0]), p[1..], q);
      assert (p + q)[1..] == p[1..] + q;
    }
  }
}
