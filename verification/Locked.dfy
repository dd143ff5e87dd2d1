// fuzz/linux_pilot_test_thread.c: the same threads with a binary semaphore around each increment.

/** The locked arm: each increment between a wait on the semaphore and a post to it. */
module Locked {
  import opened Totals

  datatype Pc = Idle | Entered | Loaded(v: nat) | Stored

  /** `sem` is the semaphore (initially 1, maximum 1); `failures` counts refused posts. */
  datatype State = State(k: nat, pcs: seq<Pc>, done: seq<nat>, sem: nat, counter: nat, failures: nat)

  datatype Action = Wait(t: nat) | Load(t: nat) | Store(t: nat) | Post(t: nat)

  const SEMAPHORE_MAX := 1

  function Init(n: nat, k: nat): State { State(k, seq(n, _ => Idle), seq(n, _ => 0), 1, 0, 0) }

  predicate Shaped(s: State) { |s.done| == |s.pcs| }

  predicate Enabled(s: State, a: Action)
    requires Shaped(s)
  {
    a.t < |s.pcs| &&
    match a
    case Wait(t) => s.pcs[t].Idle? && s.done[t] < s.k && 0 < s.sem
    case Load(t) => s.pcs[t].Entered?
    case Store(t) => s.pcs[t].Loaded?
    case Post(t) => s.pcs[t].Stored?
  }

  function Next(s: State, a: Action): (s': State)
    requires Shaped(s) && Enabled(s, a)
    ensures Shaped(s') && |s'.done| == |s.done| && s'.k == s.k
  {
    match a
    case Wait(t) => s.(pcs := s.pcs[t := Entered], sem := s.sem - 1)
    case Load(t) => s.(pcs := s.pcs[t := Loaded(s.counter)])
    case Store(t) => s.(pcs := s.pcs[t := Stored], counter := s.pcs[t].v + 1)
    case Post(t) =>
      var s1 := s.(pcs := s.pcs[t := Idle], done := s.done[t := s.done[t] + 1]);
      if s.sem < SEMAPHORE_MAX then s1.(sem := s.sem + 1) else s1.(failures := s.failures + 1)
  }

  predicate Runs(s: State, run: seq<Action>)
    requires Shaped(s)
    decreases |run|
  {
    run == [] || (Enabled(s, run[0]) && Runs(Next(s, run[0]), run[1..]))
  }

  function After(s: State, run: seq<Action>): (s': State)
    requires Shaped(s) && Runs(s, run)
    ensures Shaped(s') && |s'.done| == |s.done| && s'.k == s.k
    decreases |run|
  {
    if run == [] then s else After(Next(s, run[0]), run[1..])
  }

  /** Threads between their wait and their post. */
  function Inside(pcs: seq<Pc>): nat {
    if pcs == [] then 0 else (if pcs[0].Idle? then 0 else 1) + Inside(pcs[1..])
  }

  /** Increments stored but not yet posted for. */
  function Unposted(pcs: seq<Pc>): nat {
    if pcs == [] then 0 else (if pcs[0].Stored? then 1 else 0) + Unposted(pcs[1..])
  }

  lemma {:induction false} CountsUpdate(pcs: seq<Pc>, t: nat, pc: Pc)
    requires t < |pcs|
    ensures Inside(pcs[t := pc]) + (if pcs[t].Idle? then 0 else 1) == Inside(pcs) + if pc.Idle? then 0 else 1
    ensures Unposted(pcs[t := pc]) + (if pcs[t].Stored? then 1 else 0) == Unposted(pcs) + if pc.Stored? then 1 else 0
  {
    if t == 0 {
      assert pcs[t := pc][1..] == pcs[1..];
    } else {
      CountsUpdate(pcs[1..], t - 1, pc);
      assert pcs[t := pc][1..] == pcs[1..][t - 1 := pc];
    }
  }

  lemma {:induction false} InsideZero(pcs: seq<Pc>)
    ensures Inside(pcs) == 0 <==> forall t :: 0 <= t < |pcs| ==> pcs[t].Idle?
    ensures Inside(pcs) == 0 ==> Unposted(pcs) == 0
  {
    if pcs != [] {
      InsideZero(pcs[1..]);
      assert forall t :: 0 <= t < |pcs| ==> pcs[t] == if t == 0 then pcs[0] else pcs[1..][t - 1];
    }
  }

  lemma {:induction false} InsideOne(pcs: seq<Pc>, t: nat, u: nat)
    requires t < |pcs| && u < |pcs| && t != u && !pcs[t].Idle? && !pcs[u].Idle?
    ensures 2 <= Inside(pcs)
  {
    CountsUpdate(pcs, t, Idle);
    var less := pcs[t := Idle];
    InsideZero(less);
    assert less[u] == pcs[u];
  }

  predicate Inv(s: State) {
    && Shaped(s)
    && (forall t :: 0 <= t < |s.done| ==> s.done[t] <= s.k && (!s.pcs[t].Idle? ==> s.done[t] < s.k))
    && s.sem + Inside(s.pcs) == 1
    && s.failures == 0
    && s.counter == Sum(s.done) + Unposted(s.pcs)
    && forall t :: 0 <= t < |s.pcs| && s.pcs[t].Loaded? ==> s.pcs[t].v == s.counter
  }

  lemma {:induction false} InitInv(n: nat, k: nat)
    ensures Inv(Init(n, k))
  {
    SumConstant(Init(n, k).done, 0);
    InsideZero(Init(n, k).pcs);
  }

  lemma {:induction false} InvKept(s: State, a: Action)
    requires Inv(s) && Enabled(s, a)
    ensures Inv(Next(s, a))
  {
    var s', t := Next(s, a), a.t;
    CountsUpdate(s.pcs, t, s'.pcs[t]);
    InsideZero(s.pcs);
    if a.Post? { SumUpdate(s.done, t, s.done[t] + 1); }
    if a.Store? { Alone(s, t); }
  }

  /** Mutual exclusion: at most one thread is between wait and post. */
  lemma {:induction false} Alone(s: State, t: nat)
    requires Inv(s) && t < |s.pcs| && !s.pcs[t].Idle?
    ensures forall u :: 0 <= u < |s.pcs| && u != t ==> s.pcs[u].Idle?
  {
    forall u | 0 <= u < |s.pcs| && u != t ensures s.pcs[u].Idle? {
      if !s.pcs[u].Idle? { InsideOne(s.pcs, t, u); }
    }
  }

  lemma {:induction false} InvAlways(s: State, run: seq<Action>)
    requires Inv(s) && Runs(s, run)
    ensures Inv(After(s, run))
    decreases |run|
  {
    hide Enabled, Next, Sum, Inside, Unposted;
    if run != [] {
      InvKept(s, run[0]);
      InvAlways(Next(s, run[0]), run[1..]);
    }
  }

  predicate Final(s: State) { forall t :: 0 <= t < |s.done| ==> s.done[t] == s.k }

  /** In every interleaving: semaphore value plus threads inside is one, no post is ever
      refused, and a finished run has counted exactly n * k and left the semaphore at 1. */
  lemma {:induction false} LockedExact(n: nat, k: nat, run: seq<Action>)
    requires Runs(Init(n, k), run)
    ensures var s := After(Init(n, k), run);
            s.sem + Inside(s.pcs) == 1 && s.failures == 0 && (Final(s) ==> s.counter == n * k && s.sem == 1)
  {
    hide Runs, After, Enabled, Next;
    InitInv(n, k);
    InvAlways(Init(n, k), run);
    var s := After(Init(n, k), run);
    if Final(s) {
      SumConstant(s.done, k);
      InsideZero(s.pcs);
    }
  }

  /** No reachable state short of the end is stuck. */
  lemma {:induction false} NeverStuck(s: State) returns (a: Action)
    requires Inv(s) && !Final(s)
    ensures Enabled(s, a)
  {
    if t :| 0 <= t < |s.pcs| && !s.pcs[t].Idle? {
      a := if s.pcs[t].Entered? then Load(t) else if s.pcs[t].Loaded? then Store(t) else Post(t);
    } else {
      InsideZero(s.pcs);
      var t :| 0 <= t < |s.done| && s.done[t] != s.k;
      a := Wait(t);
    }
  }

  /** Steps into an increment. */
  function Into(pc: Pc): nat { match pc case Idle => 0 case Entered => 1 case Loaded(_) => 2 case Stored => 3 }

  /** Every run takes exactly four steps per increment. */
  lemma {:induction false} RunLength(n: nat, k: nat, run: seq<Action>)
    requires Runs(Init(n, k), run) && Final(After(Init(n, k), run))
    ensures |run| == 4 * (n * k)
  {
    hide Runs, After, Enabled, Next, Sum, Inside, Unposted;
    StepsTaken(Init(n, k), run);
    var s := After(Init(n, k), run);
    InitInv(n, k);
    InvAlways(Init(n, k), run);
    SumConstant(s.done, k);
    SumConstant(Init(n, k).done, 0);
    AllIdle(s);
    AllIdle(Init(n, k));
  }

  /** Steps taken so far: four for a finished increment, fewer for one under way. */
  function Taken(s: State): nat { 4 * Sum(s.done) + Progress(s.pcs) }

  function Progress(pcs: seq<Pc>): nat {
    if pcs == [] then 0 else Into(pcs[0]) + Progress(pcs[1..])
  }

  lemma {:induction false} AllIdle(s: State)
    requires forall t :: 0 <= t < |s.pcs| ==> s.pcs[t].Idle?
    ensures Progress(s.pcs) == 0
  {
    NoProgress(s.pcs);
  }

  lemma {:induction false} NoProgress(pcs: seq<Pc>)
    requires forall t :: 0 <= t < |pcs| ==> pcs[t].Idle?
    ensures Progress(pcs) == 0
  {
    if pcs != [] { NoProgress(pcs[1..]); }
  }

  lemma {:induction false} ProgressUpdate(pcs: seq<Pc>, t: nat, pc: Pc)
    requires t < |pcs|
    ensures Progress(pcs[t := pc]) + Into(pcs[t]) == Progress(pcs) + Into(pc)
  {
    if t == 0 {
      assert pcs[t := pc][1..] == pcs[1..];
    } else {
      ProgressUpdate(pcs[1..], t - 1, pc);
      assert pcs[t := pc][1..] == pcs[1..][t - 1 := pc];
    }
  }

  lemma {:induction false} StepsTaken(s: State, run: seq<Action>)
    requires Shaped(s) && Runs(s, run)
    ensures Taken(After(s, run)) == Taken(s) + |run|
    decreases |run|
  {
    if run != [] {
      var a := run[0];
      var s', t := Next(s, a), a.t;
      ProgressUpdate(s.pcs, t, s'.pcs[t]);
      if a.Post? { SumUpdate(s.done, t, s.done[t] + 1); }
      StepsTaken(s', run[1..]);
    }
  }
}
