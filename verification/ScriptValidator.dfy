/** The parallel script validator: one coordinator and a fixed number of workers that meet
    over unbuffered channels.  A run is any sequence of enabled actions, so every
    interleaving is covered. */
module ScriptValidator {
  import opened Options

  /** A worker waits for an item, checks one, or waits to hand over its result. */
  datatype Worker = Idle | Checking(item: nat) | Reporting(item: nat) | Exited

  datatype Phase = Running | Returned(error: Option<nat>)

  /** `current` items were handed out and `processed` results taken in.  `accepted` and
      `log` record which results were taken in as passed and in which order items were
      checked. */
  datatype State = State(
    phase: Phase, quit: bool, current: nat, processed: nat, workers: seq<Worker>, accepted: set<nat>, log: seq<nat>)

  datatype Action =
    | Dispatch(w: nat)  // rendezvous on the validate channel
    | Finish(w: nat)    // the worker is done with its item
    | Report(w: nat)    // rendezvous on the result channel
    | Close             // all results are in
    | Leave(w: nat)     // the worker observes the closed quit channel

  predicate Enabled(pass: seq<bool>, s: State, a: Action) {
    match a
    case Dispatch(w) =>
      && s.phase.Running? && s.current < |pass| && s.processed < |pass|
      && w < |s.workers| && s.workers[w].Idle?
    case Finish(w) => w < |s.workers| && s.workers[w].Checking?
    case Report(w) => s.phase.Running? && s.processed < |pass| && w < |s.workers| && s.workers[w].Reporting?
    case Close => s.phase.Running? && s.processed >= |pass|
    case Leave(w) => s.quit && w < |s.workers| && (s.workers[w].Idle? || s.workers[w].Reporting?)
  }

  predicate Passes(pass: seq<bool>, item: nat) { item < |pass| && pass[item] }

  function Apply(pass: seq<bool>, s: State, a: Action): State
    requires Enabled(pass, s, a)
  {
    match a
    case Dispatch(w) => s.(workers := s.workers[w := Checking(s.current)], current := s.current + 1)
    case Finish(w) =>
      s.(workers := s.workers[w := Reporting(s.workers[w].item)], log := s.log + [s.workers[w].item])
    case Report(w) =>
      var item := s.workers[w].item;
      if Passes(pass, item) then
        s.(workers := s.workers[w := Idle], processed := s.processed + 1, accepted := s.accepted + {item})
      else
        s.(workers := s.workers[w := Exited], processed := s.processed + 1, quit := true, phase := Returned(Some(item)))
    case Close => s.(quit := true, phase := Returned(None))
    case Leave(w) =>
      // a worker that could not deliver a success goes back to waiting and then leaves
      s.(workers := s.workers[w := if s.workers[w].Reporting? && Passes(pass, s.workers[w].item) then Idle else Exited])
  }

  /** Three workers per processor, at least one, and never more than there are items. */
  function WorkerCount(cpus: int, items: nat): (count: nat)
    requires items > 0
    ensures 1 <= count <= items
    ensures cpus <= 0 ==> count == 1
    ensures cpus > 0 ==> count == 3 * cpus || (count == items < 3 * cpus)
  {
    var most := if cpus * 3 <= 0 then 1 else cpus * 3;
    if most > items then items else most
  }

  /** The state after starting `count` workers. */
  function Init(count: nat): State {
    State(Running, false, 0, 0, seq(count, _ => Idle), {}, [])
  }

  ghost predicate IsRun(pass: seq<bool>, s: State, run: seq<Action>)
    decreases |run|
  {
    run == [] || (Enabled(pass, s, run[0]) && IsRun(pass, Apply(pass, s, run[0]), run[1..]))
  }

  ghost function After(pass: seq<bool>, s: State, run: seq<Action>): State
    requires IsRun(pass, s, run)
    decreases |run|
  {
    if run == [] then s else After(pass, Apply(pass, s, run[0]), run[1..])
  }

  // ----- the invariant

  predicate Holds(w: Worker, item: nat) { (w.Checking? || w.Reporting?) && w.item == item }

  /** Items in workers' hands are handed out, not yet taken in, and each in one hand. */
  predicate HeldOk(s: State) {
    && (forall w :: 0 <= w < |s.workers| && (s.workers[w].Checking? || s.workers[w].Reporting?) ==>
          s.workers[w].item < s.current && s.workers[w].item !in s.accepted)
    && (forall v, w :: 0 <= v < w < |s.workers| && (s.workers[v].Checking? || s.workers[v].Reporting?) ==>
          !Holds(s.workers[w], s.workers[v].item))
  }

  /** While the coordinator runs, every item handed out is taken in or in some hand. */
  ghost predicate NoneLost(s: State) {
    forall i :: 0 <= i < s.current && i !in s.accepted ==> exists w :: 0 <= w < |s.workers| && Holds(s.workers[w], i)
  }

  /** No item was checked twice, and items still being checked were not checked before. */
  predicate LogOk(s: State) {
    && (forall i, j :: 0 <= i < j < |s.log| ==> s.log[i] != s.log[j])
    && (forall i :: 0 <= i < |s.log| ==> s.log[i] < s.current)
    && (forall w :: 0 <= w < |s.workers| && s.workers[w].Checking? ==> s.workers[w].item !in s.log)
  }

  ghost predicate Inv(pass: seq<bool>, s: State) {
    && s.workers != []
    && s.current <= |pass|
    && HeldOk(s) && LogOk(s)
    && (forall i :: i in s.accepted ==> i < s.current && Passes(pass, i))
    && (s.phase.Running? ==>
          && !s.quit && s.processed == |s.accepted| && NoneLost(s)
          && forall w :: 0 <= w < |s.workers| ==> !s.workers[w].Exited?)
    && (s.phase.Returned? ==> s.quit)
    && (s.phase.Returned? && s.phase.error.Some? ==> s.phase.error.value < |pass| && !pass[s.phase.error.value])
    && (s.phase.Returned? && s.phase.error.None? ==> forall i :: 0 <= i < |pass| ==> pass[i])
  }

  predicate Contains(s: set<nat>, n: nat) { forall i :: 0 <= i < n ==> i in s }

  /** A set of numbers below n has n elements exactly when it has all of them. */
  lemma {:induction false} FullSet(s: set<nat>, n: nat)
    requires forall i :: i in s ==> i < n
    ensures |s| <= n && (|s| == n <==> Contains(s, n))
    decreases n
  {
    if n == 0 {
      assert s == {};
    } else {
      var rest := s - {n - 1};
      FullSet(rest, n - 1);
      if n - 1 in s {
        assert |s| == |rest| + 1;
        assert Contains(s, n) ==> Contains(rest, n - 1);
        if Contains(rest, n - 1) {
          forall i | 0 <= i < n ensures i in s { assert i < n - 1 ==> i in rest; }
        }
      } else {
        assert rest == s;
        assert !Contains(s, n);
      }
    }
  }

  lemma DispatchKeeps(pass: seq<bool>, s: State, w: nat)
    requires Inv(pass, s) && Enabled(pass, s, Dispatch(w))
    ensures Inv(pass, Apply(pass, s, Dispatch(w)))
  {
    var s' := Apply(pass, s, Dispatch(w));
    forall i | 0 <= i < s'.current && i !in s'.accepted
      ensures exists v :: 0 <= v < |s'.workers| && Holds(s'.workers[v], i)
    {
      if i == s.current {
        assert Holds(s'.workers[w], i);
      } else {
        var v :| 0 <= v < |s.workers| && Holds(s.workers[v], i);
        assert Holds(s'.workers[v], i);
      }
    }
  }

  lemma FinishKeeps(pass: seq<bool>, s: State, w: nat)
    requires Inv(pass, s) && Enabled(pass, s, Finish(w))
    ensures Inv(pass, Apply(pass, s, Finish(w)))
  {
    var s' := Apply(pass, s, Finish(w));
    if s.phase.Running? {
      forall i | 0 <= i < s'.current && i !in s'.accepted
        ensures exists v :: 0 <= v < |s'.workers| && Holds(s'.workers[v], i)
      {
        var v :| 0 <= v < |s.workers| && Holds(s.workers[v], i);
        assert Holds(s'.workers[v], i);
      }
    }
  }

  lemma ReportKeeps(pass: seq<bool>, s: State, w: nat)
    requires Inv(pass, s) && Enabled(pass, s, Report(w))
    ensures Inv(pass, Apply(pass, s, Report(w)))
  {
    var s', item := Apply(pass, s, Report(w)), s.workers[w].item;
    if Passes(pass, item) {
      forall i | 0 <= i < s'.current && i !in s'.accepted
        ensures exists v :: 0 <= v < |s'.workers| && Holds(s'.workers[v], i)
      {
        var v :| 0 <= v < |s.workers| && Holds(s.workers[v], i);
        assert Holds(s'.workers[v], i);
      }
    }
  }

  lemma CloseKeeps(pass: seq<bool>, s: State)
    requires Inv(pass, s) && Enabled(pass, s, Close)
    ensures Inv(pass, Apply(pass, s, Close))
  {
    FullSet(s.accepted, |pass|);
    forall i | 0 <= i < |pass|
      ensures pass[i]
    {
      assert i in s.accepted;
    }
  }

  lemma StepKeeps(pass: seq<bool>, s: State, a: Action)
    requires Inv(pass, s) && Enabled(pass, s, a)
    ensures Inv(pass, Apply(pass, s, a))
  {
    match a
    case Dispatch(w) => DispatchKeeps(pass, s, w);
    case Finish(w) => FinishKeeps(pass, s, w);
    case Report(w) => ReportKeeps(pass, s, w);
    case Close => CloseKeeps(pass, s);
    case Leave(w) => LeaveKeeps(pass, s, w);
  }

  lemma LeaveKeeps(pass: seq<bool>, s: State, w: nat)
    requires Inv(pass, s) && Enabled(pass, s, Leave(w))
    ensures Inv(pass, Apply(pass, s, Leave(w)))
  {
  }

  // ----- progress

  /** In every reachable state before the coordinator returns something can happen, and once
      quit is closed every worker that has not left can move. */
  lemma NoDeadlock(pass: seq<bool>, s: State)
    requires Inv(pass, s)
    requires s.phase.Running? || exists w :: 0 <= w < |s.workers| && !s.workers[w].Exited?
    ensures exists a :: Enabled(pass, s, a)
  {
    if s.phase.Returned? {
      var w :| 0 <= w < |s.workers| && !s.workers[w].Exited?;
      assert Enabled(pass, s, if s.workers[w].Checking? then Finish(w) else Leave(w));
    } else if s.processed >= |pass| {
      assert Enabled(pass, s, Close);
    } else if w :| 0 <= w < |s.workers| && s.workers[w].Reporting? {
      assert Enabled(pass, s, Report(w));
    } else if w :| 0 <= w < |s.workers| && s.workers[w].Checking? {
      assert Enabled(pass, s, Finish(w));
    } else {
      if s.current == |pass| {
        AllTakenIn(pass, s);
      }
      assert Enabled(pass, s, Dispatch(0));
    }
  }

  lemma AllTakenIn(pass: seq<bool>, s: State)
    requires Inv(pass, s) && s.phase.Running? && s.current == |pass|
    requires forall w :: 0 <= w < |s.workers| ==> s.workers[w].Idle?
    ensures s.processed == |pass|
  {
    forall i | 0 <= i < |pass|
      ensures i in s.accepted
    {
      assert forall w :: 0 <= w < |s.workers| ==> !Holds(s.workers[w], i);
    }
    FullSet(s.accepted, |pass|);
  }

  // ----- termination

  function Weight(w: Worker): nat {
    match w case Exited => 0 case Idle => 1 case Reporting(_) => 2 case Checking(_) => 3
  }

  function TotalWeight(workers: seq<Worker>): nat {
    if workers == [] then 0 else Weight(workers[0]) + TotalWeight(workers[1..])
  }

  function Measure(pass: seq<bool>, s: State): int {
    4 * (|pass| - s.current) + TotalWeight(s.workers) + if s.phase.Running? then 1 else 0
  }

  lemma {:induction false} UpdateWeight(workers: seq<Worker>, w: nat, x: Worker)
    requires w < |workers|
    ensures TotalWeight(workers[w := x]) == TotalWeight(workers) - Weight(workers[w]) + Weight(x)
  {
    if w == 0 {
      assert workers[w := x][1..] == workers[1..];
    } else {
      assert workers[w := x][1..] == workers[1..][w - 1 := x];
      UpdateWeight(workers[1..], w - 1, x);
    }
  }

  lemma StepShrinks(pass: seq<bool>, s: State, a: Action)
    requires Enabled(pass, s, a)
    ensures Measure(pass, Apply(pass, s, a)) < Measure(pass, s)
  {
    if !a.Close? {
      UpdateWeight(s.workers, a.w, Apply(pass, s, a).workers[a.w]);
    }
  }

  lemma {:induction false} RunKeeps(pass: seq<bool>, s: State, run: seq<Action>)
    requires Inv(pass, s) && IsRun(pass, s, run)
    ensures Inv(pass, After(pass, s, run))
    ensures |run| <= Measure(pass, s) - Measure(pass, After(pass, s, run))
    decreases |run|
  {
    if run != [] {
      StepKeeps(pass, s, run[0]);
      StepShrinks(pass, s, run[0]);
      RunKeeps(pass, Apply(pass, s, run[0]), run[1..]);
    }
  }

  lemma {:induction false} InitWeight(count: nat)
    ensures TotalWeight(seq(count, _ => Idle)) == count
  {
    if count > 0 {
      var workers: seq<Worker> := seq(count, _ => Idle);
      assert workers[1..] == seq(count - 1, _ => Idle);
      InitWeight(count - 1);
    }
  }

  /** What the protocol promises of a run started with `count` workers: a returned nil means
      every item passes and a returned error names an item that does not; no item is checked
      twice; and a run that can go no further has returned with every worker gone. */
  ghost predicate RunIsCorrect(pass: seq<bool>, count: nat, run: seq<Action>)
    requires IsRun(pass, Init(count), run)
  {
    var s := After(pass, Init(count), run);
    && (s.phase.Returned? ==> (s.phase.error.None? <==> forall i :: 0 <= i < |pass| ==> pass[i]))
    && (s.phase.Returned? && s.phase.error.Some? ==> !Passes(pass, s.phase.error.value))
    && (forall i, j :: 0 <= i < j < |s.log| ==> s.log[i] != s.log[j])
    && ((forall a :: !Enabled(pass, s, a)) ==>
          s.phase.Returned? && forall w :: 0 <= w < |s.workers| ==> s.workers[w].Exited?)
  }

  /** The protocol over every interleaving, for any item verdicts and any number of workers. */
  lemma ProtocolIsCorrect(pass: seq<bool>, count: nat, run: seq<Action>)
    requires count > 0 && IsRun(pass, Init(count), run)
    ensures RunIsCorrect(pass, count, run) && |run| <= 4 * |pass| + count + 1
  {
    InitWeight(count);
    RunKeeps(pass, Init(count), run);
    var s := After(pass, Init(count), run);
    if s.phase.Running? || exists w :: 0 <= w < |s.workers| && !s.workers[w].Exited? {
      NoDeadlock(pass, s);
    }
  }

  /** Validate starts as many workers as the machine allows.  However many processors it has,
      every run is correct and its length is bounded by the number of items alone. */
  lemma ValidateIsCorrect(pass: seq<bool>, cpus: int, run: seq<Action>)
    requires pass != [] && IsRun(pass, Init(WorkerCount(cpus, |pass|)), run)
    ensures RunIsCorrect(pass, WorkerCount(cpus, |pass|), run) && |run| <= 5 * |pass| + 1
  {
    ProtocolIsCorrect(pass, WorkerCount(cpus, |pass|), run);
  }
}
