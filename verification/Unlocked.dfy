// fuzz/linux_pilot_test_thread.c: n threads incrementing one counter k times each, without the lock.

/** The unlocked arm: `counter++` is a load and a store that other threads may separate. */
module Unlocked {
  import opened Totals

  /** `done[t]` increments are complete; `reg[t]` is the value loaded for the next, or -1. */
  datatype State = State(k: nat, done: seq<nat>, reg: seq<int>, counter: nat)

  datatype Action = Load(t: nat) | Store(t: nat)

  function Init(n: nat, k: nat): State { State(k, seq(n, _ => 0), seq(n, _ => -1), 0) }

  predicate Shaped(s: State) { |s.done| == |s.reg| && forall t :: 0 <= t < |s.reg| ==> -1 <= s.reg[t] }

  predicate Enabled(s: State, a: Action)
    requires Shaped(s)
  {
    a.t < |s.done| && match a case Load(t) => s.done[t] < s.k && s.reg[t] == -1 case Store(t) => 0 <= s.reg[t]
  }

  function Next(s: State, a: Action): (s': State)
    requires Shaped(s) && Enabled(s, a)
    ensures Shaped(s') && |s'.done| == |s.done| && s'.k == s.k
  {
    match a
    case Load(t) => s.(reg := s.reg[t := s.counter])
    case Store(t) => s.(reg := s.reg[t := -1], done := s.done[t := s.done[t] + 1], counter := s.reg[t] + 1)
  }

  predicate Runs(s: State, run: seq<Action>)
    requires Shaped(s)
    decreases |run|
  {
    run == [] || (Enabled(s, run[0]) && Runs(Next(s, run[0]), run[1..]))
  }

  function After(s: State, run: seq<Action>): (s': State)
    requires Shaped(s) && Runs(s, run)
    ensures Shaped(s') && |s'.done| == |s.done| && s'.k == s.k
    decreases |run|
  {
    if run == [] then s else After(Next(s, run[0]), run[1..])
  }

  predicate Final(s: State) { forall t :: 0 <= t < |s.done| ==> s.done[t] == s.k }

  // ---- what no interleaving can escape

  predicate Inv(s: State) {
    && Shaped(s)
    && (forall t :: 0 <= t < |s.done| ==> s.done[t] <= s.k && (0 <= s.reg[t] ==> s.done[t] < s.k))
    // no value exceeds the number of completed stores
    && s.counter <= Sum(s.done)
    && (forall t :: 0 <= t < |s.reg| ==> s.reg[t] <= Sum(s.done))
    // a store leaves at least one, so a thread that has stored loads at least one
    && (0 < Sum(s.done) ==> 1 <= s.counter)
    && (forall t :: 0 <= t < |s.reg| && 0 <= s.reg[t] && 0 < s.done[t] ==> 1 <= s.reg[t])
    // the store that completes the run is some thread's last
    && (Final(s) && s.done != [] ==> (if s.k < 2 then s.k else 2) <= s.counter)
    && (|s.done| == 1 ==> s.counter == s.done[0] && (0 <= s.reg[0] ==> s.reg[0] == s.counter))
  }

  lemma {:induction false} InitInv(n: nat, k: nat)
    ensures Inv(Init(n, k))
  {
    SumConstant(Init(n, k).done, 0);
  }

  lemma {:induction false} LoadKeeps(s: State, t: nat)
    requires Inv(s) && Enabled(s, Load(t))
    ensures Inv(Next(s, Load(t)))
  {
    SumAtLeast(s.done, t);
  }

  lemma {:induction false} StoreKeeps(s: State, t: nat)
    requires Inv(s) && Enabled(s, Store(t))
    ensures Inv(Next(s, Store(t)))
  {
    SumUpdate(s.done, t, s.done[t] + 1);
    var s' := Next(s, Store(t));
    assert Final(s') ==> s'.done[t] == s.k;
  }

  lemma {:induction false} InvAlways(s: State, run: seq<Action>)
    requires Inv(s) && Runs(s, run)
    ensures Inv(After(s, run))
    decreases |run|
  {
    hide Enabled, Next, Final, Sum;
    if run != [] {
      match run[0] { case Load(t) => LoadKeeps(s, t); case Store(t) => StoreKeeps(s, t); }
      InvAlways(Next(s, run[0]), run[1..]);
    }
  }

  // ---- what some interleaving reaches

  lemma {:induction false} RunsOn(s: State, r1: seq<Action>, r2: seq<Action>)
    requires Shaped(s) && Runs(s, r1) && Runs(After(s, r1), r2)
    ensures Runs(s, r1 + r2) && After(s, r1 + r2) == After(After(s, r1), r2)
    decreases |r1|
  {
    hide Enabled, Next;
    if r1 == [] {
      assert r1 + r2 == r2;
    } else {
      RunsOn(Next(s, r1[0]), r1[1..], r2);
      assert (r1 + r2)[1..] == r1[1..] + r2;
    }
  }

  lemma {:induction false} RunsOne(s: State, a: Action)
    requires Shaped(s) && Enabled(s, a)
    ensures Runs(s, [a]) && After(s, [a]) == Next(s, a)
  {
    hide Enabled, Next;
    assert [a][1..] == [];
  }

  /** Thread t increments m times undisturbed. */
  lemma {:induction false} Solo(s: State, t: nat, m: nat) returns (run: seq<Action>)
    requires Shaped(s) && t < |s.done| && s.reg[t] == -1 && s.done[t] + m <= s.k
    ensures Runs(s, run)
    ensures After(s, run) == s.(done := s.done[t := s.done[t] + m], counter := s.counter + m)
  {
    if m == 0 {
      run := [];
      assert s.done[t := s.done[t] + m] == s.done;
    } else {
      var before := Solo(s, t, m - 1);
      var s1 := After(s, before);
      RunsOne(s1, Load(t));
      var s2 := Next(s1, Load(t));
      RunsOne(s2, Store(t));
      RunsOn(s1, [Load(t)], [Store(t)]);
      RunsOn(s, before, [Load(t)] + [Store(t)]);
      run := before + ([Load(t)] + [Store(t)]);
      assert Next(s2, Store(t)).reg == s.reg;
    }
  }

  /** The state after every thread from `from` on has done `work[t]` more increments, one
      thread after the other. */
  function Worked(s: State, work: seq<nat>): State
    requires |work| == |s.done|
  {
    s.(done := seq(|work|, t requires 0 <= t < |work| && |s.done| == |work| => s.done[t] + work[t]),
       counter := s.counter + Sum(work))
  }

  predicate CanWork(s: State, work: seq<nat>) {
    |work| == |s.done| && Shaped(s)
    && forall t :: 0 <= t < |work| ==> s.done[t] + work[t] <= s.k && (0 < work[t] ==> s.reg[t] == -1)
  }

  lemma {:induction false} Batch(s: State, work: seq<nat>, m: nat) returns (run: seq<Action>)
    requires CanWork(s, work) && m <= |work|
    requires forall t :: m <= t < |work| ==> work[t] == 0
    ensures Runs(s, run) && After(s, run) == Worked(s, work)
    decreases m
  {
    hide Enabled, Next, Sum;
    if m == 0 {
      run := [];
      SumConstant(work, 0);
      assert Worked(s, work).done == s.done;
    } else {
      var t := m - 1;
      var less := work[t := 0];
      SumUpdate(work, t, 0);
      run := Batch(s, less, t);
      if work[t] == 0 {
        assert less == work;
      } else {
        run := BatchLast(s, work, less, t, run);
      }
    }
  }

  lemma {:induction false} BatchLast(s: State, work: seq<nat>, less: seq<nat>, t: nat, before: seq<Action>)
    returns (run: seq<Action>)
    requires CanWork(s, work) && t < |work| && less == work[t := 0] && 0 < work[t] && Sum(work) == Sum(less) + work[t]
    requires Runs(s, before) && After(s, before) == Worked(s, less)
    ensures Runs(s, run) && After(s, run) == Worked(s, work)
  {
    hide Enabled, Next, Sum, Runs, After;
    var s1 := Worked(s, less);
    var last := Solo(s1, t, work[t]);
    RunsOn(s, before, last);
    run := before + last;
    assert s1.done[t := s1.done[t] + work[t]] == Worked(s, work).done;
  }

  /** Thread t loads, the others do `work`, and thread t's store erases all of it. */
  function Erased(s: State, t: nat, work: seq<nat>): State
    requires t < |work| == |s.done|
  {
    s.(done := seq(|work|, u requires 0 <= u < |work| && |s.done| == |work| =>
            s.done[u] + work[u] + if u == t then 1 else 0),
       counter := s.counter + 1)
  }

  lemma {:induction false} Erase(s: State, t: nat, work: seq<nat>) returns (run: seq<Action>)
    requires CanWork(s, work) && t < |work| && work[t] == 0 && s.reg[t] == -1 && s.done[t] < s.k
    ensures Runs(s, run) && After(s, run) == Erased(s, t, work)
  {
    hide Runs, After, Sum;
    RunsOne(s, Load(t));
    var s1 := Next(s, Load(t));
    var middle := Batch(s1, work, |work|);
    var s2 := Worked(s1, work);
    RunsOne(s2, Store(t));
    var s3 := Next(s2, Store(t));
    assert s3.done == Erased(s, t, work).done && s3.reg == s.reg;
    RunsOn(s1, middle, [Store(t)]);
    RunsOn(s, [Load(t)], middle + [Store(t)]);
    run := [Load(t)] + (middle + [Store(t)]);
  }

  /** All increments but thread 0's first and thread 1's last are spread over three stretches:
      those thread 0's store erases, those that count, and those thread 1's store erases. */
  lemma {:induction false} Overlap(n: nat, k: nat, p: nat) returns (run: seq<Action>)
    requires 2 <= n && 1 <= k && p + 2 <= n * k
    ensures Runs(Init(n, k), run) && Final(After(Init(n, k), run)) && After(Init(n, k), run).counter == p + 2
  {
    hide Runs, After, Sum, Enabled, Next, Fill;
    var caps: seq<nat> := seq(n, t => if t < 2 then k - 1 else k);
    CapsSum(n, k, caps);
    var counted := Fill(caps, p);
    FillFits(caps, p);
    var before: seq<nat> := seq(n, t requires 0 <= t < n => if t == 0 then 0 else caps[t] - counted[t]);
    var after: seq<nat> := seq(n, t requires 0 <= t < n => if t == 0 then caps[0] - counted[0] else 0);
    var s0 := Init(n, k);
    var r0 := Erase(s0, 0, before);
    var s1 := Erased(s0, 0, before);
    var r1 := Batch(s1, counted, n);
    var s2 := Worked(s1, counted);
    var r2 := Erase(s2, 1, after);
    var s3 := Erased(s2, 1, after);
    RunsOn(s1, r1, r2);
    RunsOn(s0, r0, r1 + r2);
    run := r0 + (r1 + r2);
    assert forall t :: 0 <= t < n ==> s3.done[t] == k;
  }

  lemma {:induction false} CapsSum(n: nat, k: nat, caps: seq<nat>)
    requires 2 <= n && 1 <= k && |caps| == n && forall t :: 0 <= t < n ==> caps[t] == if t < 2 then k - 1 else k
    ensures Sum(caps) == n * k - 2
  {
    var rest := caps[2..];
    SumConstant(rest, k);
    assert caps == [caps[0], caps[1]] + rest;
    assert caps[1..][1..] == rest;
    assert Sum(caps) == caps[0] + Sum(caps[1..]) && Sum(caps[1..]) == caps[1] + Sum(rest);
    assert n * k == (n - 2) * k + 2 * k;
  }

  /** Every thread loads before any stores. */
  lemma {:induction false} LoadAll(n: nat, k: nat, m: nat) returns (run: seq<Action>)
    requires m <= n && 1 <= k
    ensures Runs(Init(n, k), run)
    ensures After(Init(n, k), run) == Init(n, k).(reg := seq(n, t => if t < m then 0 else -1))
  {
    if m == 0 {
      run := [];
      assert Init(n, k).reg == seq(n, t => if t < m then 0 else -1);
    } else {
      var before := LoadAll(n, k, m - 1);
      var s := After(Init(n, k), before);
      RunsOne(s, Load(m - 1));
      RunsOn(Init(n, k), before, [Load(m - 1)]);
      run := before + [Load(m - 1)];
      assert Next(s, Load(m - 1)).reg == seq(n, t => if t < m then 0 else -1);
    }
  }

  lemma {:induction false} StoreAll(n: nat, m: nat) returns (run: seq<Action>)
    requires 1 <= m <= n
    ensures Runs(Init(n, 1), run)
    ensures After(Init(n, 1), run)
         == State(1, seq(n, t => if t < m then 1 else 0), seq(n, t => if t < m then -1 else 0), 1)
  {
    var before;
    if m == 1 {
      before := LoadAll(n, 1, n);
    } else {
      before := StoreAll(n, m - 1);
    }
    var s := After(Init(n, 1), before);
    RunsOne(s, Store(m - 1));
    RunsOn(Init(n, 1), before, [Store(m - 1)]);
    run := before + [Store(m - 1)];
    var s' := Next(s, Store(m - 1));
    assert s'.done == seq(n, t => if t < m then 1 else 0);
    assert s'.reg == seq(n, t => if t < m then -1 else 0);
  }

  /** The final counts that n threads of k increments can leave. */
  predicate Possible(n: nat, k: nat, v: nat) {
    if n == 0 || k == 0 then v == 0
    else if n == 1 then v == k
    else if k == 1 then 1 <= v <= n
    else 2 <= v <= n * k
  }

  lemma {:induction false} OnlyPossible(n: nat, k: nat, run: seq<Action>)
    requires Runs(Init(n, k), run) && Final(After(Init(n, k), run))
    ensures Possible(n, k, After(Init(n, k), run).counter)
  {
    hide Runs, After, Next, Enabled;
    InitInv(n, k);
    InvAlways(Init(n, k), run);
    var s := After(Init(n, k), run);
    SumConstant(s.done, k);
  }

  lemma {:induction false} EveryPossible(n: nat, k: nat, v: nat) returns (run: seq<Action>)
    requires Possible(n, k, v)
    ensures Runs(Init(n, k), run) && Final(After(Init(n, k), run)) && After(Init(n, k), run).counter == v
  {
    hide Next, Enabled;
    if n == 0 || k == 0 {
      run := [];
    } else if n == 1 {
      run := Solo(Init(n, k), 0, k);
    } else if v == 1 {
      run := StoreAll(n, n);
    } else {
      run := Overlap(n, k, v - 2);
    }
  }

  ghost predicate Reaches(n: nat, k: nat, v: nat) {
    exists run :: Runs(Init(n, k), run) && Final(After(Init(n, k), run)) && After(Init(n, k), run).counter == v
  }

  /** Exactly: with at least two threads and two increments each, every count from 2 to n * k
      and no other is the outcome of some interleaving. */
  lemma {:induction false} FinalCounts(n: nat, k: nat, v: nat)
    ensures Reaches(n, k, v) <==> Possible(n, k, v)
  {
    hide Runs, After, Final;
    if Possible(n, k, v) {
      var run := EveryPossible(n, k, v);
    }
    forall run | Runs(Init(n, k), run) && Final(After(Init(n, k), run)) && After(Init(n, k), run).counter == v
      ensures Possible(n, k, v)
    {
      OnlyPossible(n, k, run);
    }
  }

  /** So the harness's "the count is wrong" check is neither bound to pass nor bound to fail. */
  lemma {:induction false} WrongCountNotForced(n: nat, k: nat)
    requires 2 <= n && 1 <= k
    ensures Reaches(n, k, n * k) && exists v :: v != n * k && Reaches(n, k, v)
  {
    hide Reaches;
    assert n * k >= 2 by { assert n * k >= n * 1; }
    FinalCounts(n, k, n * k);
    var v := if k == 1 then 1 else 2;
    assert k >= 2 ==> n * k >= n * 2;
    FinalCounts(n, k, v);
  }
}
