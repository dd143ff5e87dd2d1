// fuzz/linux_pilot_test_pthread_cond.c: what the invariant means for whole runs.

/** What the test promises: nobody is missed, nothing gets stuck, and every run ends. */
module BroadcastLiveness {
  import opened BroadcastModel
  import opened BroadcastInvariant
  import opened BroadcastSafety

  /** When main broadcasts, every worker is on the waiter list or has already been woken. */
  lemma NoneMissed(n: nat, run: seq<Action>, t: nat)
    requires Runs(Init(n), run) && WithBarrier(run) && t < n
    requires After(Init(n), run).pcs[n].Broadcasting?
    ensures var s := After(Init(n), run);
            Woke(s.pcs[t]) || (t in s.queue && Next(s, Broadcast).token[t])
  {
    InitInv(n);
    InvAlways(Init(n), run);
  }

  /** Past pthread_cond_wait's sleep. */
  predicate Woke(pc: Pc) {
    ((pc.Try? || pc.Blocked? || pc.Woken? || pc.Locked? || pc.Posting?) && pc.c == Again) || pc.Bumped? || pc.Done?
  }

  /** Steps other than main polling start_num and a wait cut short by a signal. */
  predicate Progress(a: Action) { !a.Spin? && !a.Interrupt? }

  /** A thread that needs nobody's help. */
  predicate Ready(pc: Pc) { Active(pc) || Holds(pc) || pc.Broadcasting? }

  function Step(s: State, t: nat): (a: Action)
    requires Shaped(s) && Roles(s) && t <= s.n && Ready(s.pcs[t])
    ensures Enabled(s, a) && Progress(a) && !a.Spurious?
  {
    match s.pcs[t]
    case Try(_) => TryLock(t)
    case Woken(_) => Uncount(t)
    case Posting(_) => Post(t)
    case Locked(c) => (match c case First => Count(t) case Again => Bump(t) case Barrier => Unlock(t))
    case Counted => Link(t)
    case Broadcasting => Broadcast
    case _ => Unlock(t)
  }

  /** No reachable state short of the end is stuck: some step other than polling is possible, and none has to be a
      spurious wakeup. */
  lemma {:induction false} NeverStuck(s: State) returns (a: Action)
    requires Inv(s) && !s.pcs[s.n].Finished?
    ensures Enabled(s, a) && Progress(a) && !a.Spurious?
  {
    if t :| 0 <= t <= s.n && Ready(s.pcs[t]) {
      a := Step(s, t);
    } else {
      assert s.owner == NOBODY || Ready(s.pcs[s.owner]);
      if b :| 0 <= b <= s.n && s.pcs[b].Blocked? {
        a := TakeToken(b);
      } else if s.pcs[s.n].Spinning? {
        assert forall t :: 0 <= t < s.n ==> Started(s.pcs[t]) == 1;
        SumAll(Started, s.pcs);
        a := LeaveSpin(true);
      } else if w :| 0 <= w < s.n && s.pcs[w].Asleep? {
        a := Wake(w);
      } else {
        a := Join;
      }
    }
  }

  lemma {:induction false} SumAll(f: Pc -> nat, pcs: seq<Pc>)
    requires pcs != [] && f(pcs[|pcs| - 1]) == 0
    requires forall t :: 0 <= t < |pcs| - 1 ==> f(pcs[t]) == 1
    ensures Sum(f, pcs) == |pcs| - 1
  {
    if 1 < |pcs| { SumAll(f, pcs[1..]); } else { assert pcs[1..] == []; }
  }

  lemma {:induction false} OwnerHolds(s: State)
    requires Inv(s)
    ensures s.owner == NOBODY || Holds(s.pcs[s.owner])
    ensures s.queue == [] || (s.queue[0] < s.n && Waits(s.pcs[s.queue[0]]))
  {
    assert s.queue == [] || s.queue[0] in s.queue;
  }

  lemma {:induction false} EndState(s: State)
    requires Inv(s) && s.pcs[s.n].Finished?
    ensures s.wakenNum == s.n && s.startNum == s.n && s.queue == [] && s.owner == NOBODY && s.waiters == 0
  {
    SumAll(Started, s.pcs);
    SumAll(Awake, s.pcs);
    SumNone(Waiting, s.pcs);
    OwnerHolds(s);
  }

  /** When main is done, every worker was counted and woken exactly once, and both objects
      may be destroyed: nobody holds, waits for, or is listed on them. */
  lemma {:induction false} EndsRight(n: nat, run: seq<Action>)
    requires Runs(Init(n), run) && WithBarrier(run) && After(Init(n), run).pcs[n].Finished?
    ensures var s := After(Init(n), run);
            s.wakenNum == n && s.startNum == n && s.queue == [] && s.owner == NOBODY && s.waiters == 0
  {
    hide Next, Enabled;
    InitInv(n);
    InvAlways(Init(n), run);
    EndState(After(Init(n), run));
  }

  /** How far a thread still has to go. */
  function Ahead(pc: Pc): nat {
    match pc
    case Try(c) => (match c case First => 10 case Again => 4 case Barrier => 6)
    case Blocked(c) => (match c case First => 10 case Again => 4 case Barrier => 6)
    case Woken(c) => (match c case First => 10 case Again => 4 case Barrier => 6)
    case Locked(c) => (match c case First => 9 case Again => 3 case Barrier => 5)
    case Counted => 8
    case Linked => 7
    case Posting(c) => (match c case First => 6 case Again => 1 case Barrier => 4)
    case Asleep => 5
    case Bumped => 2
    case Done => 0
    case Spinning => 7
    case Broadcasting => 3
    case Joining => 2
    case Finished => 0
  }

  /** Six per position, and what is left of the current round of the lock loop. */
  function Weight(pc: Pc): nat {
    6 * Ahead(pc) + if pc.Try? then 1 else if pc.Woken? then 2 else 0
  }

  function Measure(s: State): nat { Sum(Weight, s.pcs) + 3 * s.sem }

  lemma {:induction false} WeightFalls(s: State, a: Action)
    requires Shaped(s) && Enabled(s, a)
    ensures var t, s' := Mover(s, a), Next(s, a);
            var before, after := Weight(s.pcs[t]) + 3 * s.sem, Weight(s'.pcs[t]) + 3 * s'.sem;
            if Progress(a) then after < before else after == before + if a.Interrupt? then 2 else 0
  {
  }

  /** Every progress step lowers the measure; an interrupted wait raises it by two. */
  lemma {:induction false} MeasureFalls(s: State, a: Action)
    requires Shaped(s) && Enabled(s, a)
    ensures Progress(a) ==> Measure(Next(s, a)) < Measure(s)
    ensures a.Spin? ==> Measure(Next(s, a)) == Measure(s)
    ensures a.Interrupt? ==> Measure(Next(s, a)) == Measure(s) + 2
  {
    hide Next, Weight, Enabled, Mover;
    var t, s' := Mover(s, a), Next(s, a);
    OneMoves(s, a);
    WeightFalls(s, a);
    SumUpdate(Weight, s.pcs, t, s'.pcs[t]);
  }

  function ProgressSteps(run: seq<Action>): nat {
    if run == [] then 0 else (if Progress(run[0]) then 1 else 0) + ProgressSteps(run[1..])
  }

  function Interrupts(run: seq<Action>): nat {
    if run == [] then 0 else (if run[0].Interrupt? then 1 else 0) + Interrupts(run[1..])
  }

  lemma {:induction false} StepsBounded(s: State, run: seq<Action>)
    requires Shaped(s) && Runs(s, run)
    ensures ProgressSteps(run) + Measure(After(s, run)) <= Measure(s) + 2 * Interrupts(run)
    decreases |run|
  {
    if run != [] {
      MeasureFalls(s, run[0]);
      StepsBounded(Next(s, run[0]), run[1..]);
    }
  }

  lemma {:induction false} WeightOfInit(n: nat)
    ensures Measure(Init(n)) == 61 * n + 42
  {
    var pcs := Init(n).pcs;
    if n == 0 {
      assert pcs == [Spinning] && pcs[1..] == [];
      assert Sum(Weight, pcs) == Weight(Spinning) + 0;
    } else {
      WeightOfInit(n - 1);
      assert pcs[1..] == Init(n - 1).pcs;
    }
  }

  /** Every run takes at most 61n + 42 steps besides main's polling, and two more for each
      interrupted wait: with finitely many interruptions it ends. */
  lemma EveryRunEnds(n: nat, run: seq<Action>)
    requires Runs(Init(n), run)
    ensures ProgressSteps(run) <= 61 * n + 42 + 2 * Interrupts(run)
  {
    StepsBounded(Init(n), run);
    WeightOfInit(n);
  }
}
