// fuzz/linux_pilot_test_pthread_cond.c: what the lock and unlock before the broadcast are for.

/** Why the barrier is there: without it a wakeup can be lost, for every number of workers. */
module BroadcastWithoutBarrier {
  import opened BroadcastModel
  import opened BroadcastInvariant
  import opened BroadcastSafety

  /** A worker asleep with no token after main's only broadcast. */
  predicate Lost(s: State, t: nat) {
    Shaped(s) && t < s.n && s.pcs[t].Asleep? && !s.token[t] && s.pcs[s.n].Joining?
  }

  /** Only a spurious wakeup could save it: main never finishes. */
  lemma {:induction false} LostForever(s: State, t: nat, run: seq<Action>)
    requires Lost(s, t) && Runs(s, run)
    requires forall i :: 0 <= i < |run| ==> run[i] != Spurious(t)
    ensures Lost(After(s, run), t) && !After(s, run).pcs[s.n].Finished?
    decreases |run|
  {
    if run != [] {
      assert Lost(Next(s, run[0]), t);
      LostForever(Next(s, run[0]), t, run[1..]);
    }
  }

  lemma {:induction false} RunsOn(s: State, r1: seq<Action>, r2: seq<Action>)
    requires Shaped(s) && Runs(s, r1) && Runs(After(s, r1), r2)
    ensures Runs(s, r1 + r2) && After(s, r1 + r2) == After(After(s, r1), r2)
    decreases |r1|
  {
    hide Next, Enabled;
    if r1 == [] {
      assert r1 + r2 == r2;
    } else {
      RunsOn(Next(s, r1[0]), r1[1..], r2);
      assert (r1 + r2)[1..] == r1[1..] + r2;
    }
  }

  lemma {:induction false} RunsFrom(s: State, a: Action, run: seq<Action>)
    requires Shaped(s) && Enabled(s, a) && Runs(Next(s, a), run)
    ensures Runs(s, [a] + run) && After(s, [a] + run) == After(Next(s, a), run)
  {
    hide Next, Enabled;
    assert ([a] + run)[1..] == run;
  }

  /** The first k workers are asleep on the waiter list and the others have not begun. */
  function Parked(n: nat, k: nat): State
    requires k <= n
  {
    State(n, seq(n, i => if i < k then Asleep else Try(First)) + [Spinning], NOBODY, 0, 0,
          seq(k, i requires 0 <= i < k => (k - 1 - i) as nat), seq(n, _ => false), k, 0)
  }

  lemma {:induction false} ParkOne(n: nat, k: nat) returns (run: seq<Action>)
    requires k < n
    ensures Runs(Parked(n, k), run) && After(Parked(n, k), run) == Parked(n, k + 1)
  {
    var s0 := Parked(n, k);
    var s1 := Next(s0, TryLock(k));
    var s2 := Next(s1, Count(k));
    var s3 := Next(s2, Link(k));
    var s4 := Next(s3, Unlock(k));
    assert s4.pcs == Parked(n, k + 1).pcs;
    assert s4.queue == Parked(n, k + 1).queue;
    run := [];
    RunsFrom(s3, Unlock(k), run);
    run := [Unlock(k)] + run;
    RunsFrom(s2, Link(k), run);
    run := [Link(k)] + run;
    RunsFrom(s1, Count(k), run);
    run := [Count(k)] + run;
    RunsFrom(s0, TryLock(k), run);
    run := [TryLock(k)] + run;
  }

  lemma {:induction false} Park(n: nat, k: nat) returns (run: seq<Action>)
    requires k <= n
    ensures Runs(Init(n), run) && After(Init(n), run) == Parked(n, k)
  {
    if k == 0 {
      run := [];
      assert Init(n).pcs == Parked(n, 0).pcs;
    } else {
      var before := Park(n, k - 1);
      var one := ParkOne(n, k - 1);
      RunsOn(Init(n), before, one);
      run := before + one;
    }
  }

  /** Main has broadcast while the last worker, counted, was not on the list yet. */
  lemma {:induction false} MissLast(n: nat) returns (run: seq<Action>)
    requires 0 < n
    ensures Runs(Parked(n, n - 1), run) && Lost(After(Parked(n, n - 1), run), n - 1)
  {
    var k := n - 1;
    var s0 := Parked(n, k);
    var s1 := Next(s0, TryLock(k));
    var s2 := Next(s1, Count(k));
    var s3 := Next(s2, LeaveSpin(false));
    run := MissRest(s3, k);
    RunsFrom(s2, LeaveSpin(false), run);
    run := [LeaveSpin(false)] + run;
    RunsFrom(s1, Count(k), run);
    run := [Count(k)] + run;
    RunsFrom(s0, TryLock(k), run);
    run := [TryLock(k)] + run;
  }

  lemma {:induction false} MissRest(s3: State, k: nat) returns (run: seq<Action>)
    requires Shaped(s3) && k < s3.n && s3.pcs[k].Counted? && s3.pcs[s3.n].Broadcasting?
    requires s3.waiters == 0 && !s3.token[k] && k !in s3.queue
    ensures Runs(s3, run) && Lost(After(s3, run), k)
  {
    var s4 := Next(s3, Broadcast);
    var s5 := Next(s4, Link(k));
    var s6 := Next(s5, Unlock(k));
    run := [];
    RunsFrom(s5, Unlock(k), run);
    run := [Unlock(k)] + run;
    RunsFrom(s4, Link(k), run);
    run := [Link(k)] + run;
    RunsFrom(s3, Broadcast, run);
    run := [Broadcast] + run;
  }

  lemma {:induction false} WakeupLostWithoutBarrier(n: nat) returns (run: seq<Action>)
    requires 0 < n
    ensures Runs(Init(n), run) && Lost(After(Init(n), run), n - 1)
  {
    var before := Park(n, n - 1);
    var miss := MissLast(n);
    RunsOn(Init(n), before, miss);
    run := before + miss;
  }

  /** With it, no reachable state has a lost worker. */
  lemma {:induction false} NoneLostWithBarrier(n: nat, run: seq<Action>, t: nat)
    requires Runs(Init(n), run) && WithBarrier(run)
    ensures !Lost(After(Init(n), run), t)
  {
    InitInv(n);
    InvAlways(Init(n), run);
  }
}
