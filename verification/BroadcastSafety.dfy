// src/thread/pthread_mutex.c and src/thread/pthread_cond.c: every step keeps the invariant.

/** Every step keeps the invariant, so every reachable state has it. */
module BroadcastSafety {
  import opened BroadcastModel
  import opened BroadcastInvariant

  /** The one thread a step moves. */
  function Mover(s: State, a: Action): nat {
    match a
    case TryLock(t) => t case TakeToken(t) => t case Interrupt(t) => t case Uncount(t) => t
    case Count(t) => t case Link(t) => t case Unlock(t) => t case Post(t) => t
    case Wake(t) => t case Spurious(t) => t case Bump(t) => t
    case _ => s.n
  }

  lemma {:induction false} OneMoves(s: State, a: Action)
    requires Shaped(s) && Enabled(s, a)
    ensures Mover(s, a) <= s.n
    ensures var s' := Next(s, a); s'.pcs == s.pcs[Mover(s, a) := s'.pcs[Mover(s, a)]]
  {
  }

  lemma {:induction false} RolesKept(s: State, a: Action)
    requires Inv(s) && Enabled(s, a)
    ensures Roles(Next(s, a))
  {
    hide Counts, Handoff, Exclusive, Listed, Phases;
  }

  lemma {:induction false} ExclusiveKept(s: State, a: Action)
    requires Inv(s) && Enabled(s, a)
    ensures Exclusive(Next(s, a))
  {
    hide Counts, Handoff, Listed, Phases;
  }

  lemma {:induction false} SumAtLeast(f: Pc -> nat, pcs: seq<Pc>, t: nat)
    requires t < |pcs|
    ensures f(pcs[t]) <= Sum(f, pcs)
  {
    if 0 < t { SumAtLeast(f, pcs[1..], t - 1); }
  }

  /** The counters change by what the moving thread's position contributes to them. */
  lemma {:induction false} WaitersMove(s: State, a: Action)
    requires Inv(s) && Enabled(s, a)
    ensures Next(s, a).waiters + Waiting(s.pcs[Mover(s, a)]) == s.waiters + Waiting(Next(s, a).pcs[Mover(s, a)])
  {
    hide Handoff, Exclusive, Listed, Phases, Roles, Sum;
    SumAtLeast(Waiting, s.pcs, Mover(s, a));
  }

  lemma {:induction false} StartMoves(s: State, a: Action)
    requires Inv(s) && Enabled(s, a)
    ensures Next(s, a).startNum + Started(s.pcs[Mover(s, a)]) == s.startNum + Started(Next(s, a).pcs[Mover(s, a)])
  {
    hide Handoff, Exclusive, Listed, Phases, Counts;
  }

  lemma {:induction false} WakenMoves(s: State, a: Action)
    requires Inv(s) && Enabled(s, a)
    ensures Next(s, a).wakenNum + Awake(s.pcs[Mover(s, a)]) == s.wakenNum + Awake(Next(s, a).pcs[Mover(s, a)])
  {
    hide Handoff, Exclusive, Listed, Phases, Counts;
  }

  lemma {:induction false} CountsKept(s: State, a: Action)
    requires Inv(s) && Enabled(s, a)
    ensures Counts(Next(s, a))
  {
    hide Next, Enabled, Waiting, Started, Awake, Roles, Exclusive, Handoff, Listed, Phases, Mover;
    var t, s' := Mover(s, a), Next(s, a);
    OneMoves(s, a);
    WaitersMove(s, a);
    StartMoves(s, a);
    WakenMoves(s, a);
    SumUpdate(Waiting, s.pcs, t, s'.pcs[t]);
    SumUpdate(Started, s.pcs, t, s'.pcs[t]);
    SumUpdate(Awake, s.pcs, t, s'.pcs[t]);
  }

  lemma {:induction false} HandoffKept(s: State, a: Action)
    requires Inv(s) && Enabled(s, a)
    ensures Handoff(Next(s, a))
  {
    var t, s' := Mover(s, a), Next(s, a);
    OneMoves(s, a);
    if s'.owner == NOBODY && s'.sem == 0 {
      if b :| 0 <= b <= s'.n && s'.pcs[b].Blocked? {
        if a.Unlock? {
          SumAtLeast(Waiting, s.pcs, b);
          assert Active(s'.pcs[t]);
        } else if Active(s'.pcs[t]) {
        } else {
          var u :| 0 <= u <= s.n && Active(s.pcs[u]);
          assert u != t;
          assert Active(s'.pcs[u]);
        }
      }
    }
  }

  lemma {:induction false} WithoutHas(q: seq<nat>, t: nat)
    ensures forall x :: x in Without(q, t) <==> x in q && x != t
  {
    if q != [] { WithoutHas(q[1..], t); }
  }

  lemma {:induction false} ListedKeptByRemoval(s: State, a: Action)
    requires Inv(s) && Enabled(s, a) && (a.Spurious? || a.Broadcast?)
    ensures Listed(Next(s, a))
  {
    hide Counts, Handoff, Exclusive, Phases;
    if a.Spurious? { WithoutHas(s.queue, a.t); }
  }

  /** Steps that change neither the list nor a token, and move nobody into or out of waiting. */
  lemma {:induction false} ListedKeptElsewhere(s: State, a: Action)
    requires Inv(s) && Enabled(s, a) && !a.Spurious? && !a.Broadcast? && !a.Link? && !a.Wake?
    ensures Listed(Next(s, a))
  {
    hide Counts, Handoff, Exclusive, Phases;
    var s', m := Next(s, a), Mover(s, a);
    OneMoves(s, a);
    assert s'.queue == s.queue && s'.token == s.token;
    if m < s.n { WaitingStays(s, a); }
  }

  lemma {:induction false} WaitingStays(s: State, a: Action)
    requires Inv(s) && Enabled(s, a) && !a.Spurious? && !a.Broadcast? && !a.Link? && !a.Wake?
    ensures var m := Mover(s, a); m < s.n ==> Waits(Next(s, a).pcs[m]) == Waits(s.pcs[m])
  {
    hide Counts, Handoff, Exclusive, Phases, Listed;
  }

  lemma {:induction false} ListedKeptByLink(s: State, a: Action)
    requires Inv(s) && Enabled(s, a) && (a.Link? || a.Wake?)
    ensures Listed(Next(s, a))
  {
    hide Counts, Handoff, Exclusive, Phases;
  }

  lemma {:induction false} ListedKept(s: State, a: Action)
    requires Inv(s) && Enabled(s, a)
    ensures Listed(Next(s, a))
  {
    hide Inv, Listed, Next;
    if a.Spurious? || a.Broadcast? {
      ListedKeptByRemoval(s, a);
    } else if a.Link? || a.Wake? {
      ListedKeptByLink(s, a);
    } else {
      ListedKeptElsewhere(s, a);
    }
  }

  /** Once start_num is n, no worker is uncounted. */
  lemma {:induction false} AllStarted(pcs: seq<Pc>, t: nat)
    requires |pcs| <= Sum(Started, pcs) + 1 && pcs != [] && Started(pcs[|pcs| - 1]) == 0
    requires t < |pcs| - 1
    ensures Started(pcs[t]) == 1
  {
    SumAtMost(pcs[1..]);
    if t == 0 {
    } else {
      AllStarted(pcs[1..], t - 1);
    }
  }

  lemma {:induction false} SumAtMost(pcs: seq<Pc>)
    requires pcs != [] && Started(pcs[|pcs| - 1]) == 0
    ensures Sum(Started, pcs) <= |pcs| - 1
  {
    if 1 < |pcs| { SumAtMost(pcs[1..]); } else { assert pcs[1..] == []; }
  }

  lemma {:induction false} AllCountedLeaving(s: State, a: Action)
    requires Inv(s) && Enabled(s, a) && a.LeaveSpin?
    ensures AllCounted(Next(s, a))
  {
    hide Handoff, Listed, Exclusive;
    forall t | 0 <= t < s.n ensures !Uncounted(s.pcs[t]) { AllStarted(s.pcs, t); }
  }

  lemma {:induction false} AllCountedElsewhere(s: State, a: Action)
    requires Inv(s) && Enabled(s, a) && !a.LeaveSpin?
    ensures AllCounted(Next(s, a))
  {
    hide Handoff, Listed, Exclusive, Counts;
  }

  lemma {:induction false} AllCountedKept(s: State, a: Action)
    requires Inv(s) && Enabled(s, a)
    ensures AllCounted(Next(s, a))
  {
    hide Inv, AllCounted, Next;
    if a.LeaveSpin? { AllCountedLeaving(s, a); } else { AllCountedElsewhere(s, a); }
  }

  lemma {:induction false} AllLinkedKept(s: State, a: Action)
    requires Inv(s) && Enabled(s, a) && a != LeaveSpin(false)
    ensures AllLinked(Next(s, a))
  {
    hide Counts, Handoff, Listed;
  }

  lemma {:induction false} AllPostedKept(s: State, a: Action)
    requires Inv(s) && Enabled(s, a)
    ensures AllPosted(Next(s, a))
  {
    hide Counts, Handoff, Exclusive;
  }

  lemma {:induction false} AllDoneKept(s: State, a: Action)
    requires Inv(s) && Enabled(s, a)
    ensures AllDone(Next(s, a))
  {
    hide Counts, Handoff, Exclusive, Listed;
  }

  lemma {:induction false} InvKept(s: State, a: Action)
    requires Inv(s) && Enabled(s, a) && a != LeaveSpin(false)
    ensures Inv(Next(s, a))
  {
    RolesKept(s, a);
    ExclusiveKept(s, a);
    CountsKept(s, a);
    HandoffKept(s, a);
    ListedKept(s, a);
    AllCountedKept(s, a);
    AllLinkedKept(s, a);
    AllPostedKept(s, a);
    AllDoneKept(s, a);
  }

  lemma {:induction false} SumNone(f: Pc -> nat, pcs: seq<Pc>)
    requires forall t :: 0 <= t < |pcs| ==> f(pcs[t]) == 0
    ensures Sum(f, pcs) == 0
  {
    if pcs != [] { SumNone(f, pcs[1..]); }
  }

  lemma InitInv(n: nat)
    ensures Inv(Init(n))
  {
    SumNone(Waiting, Init(n).pcs);
    SumNone(Started, Init(n).pcs);
    SumNone(Awake, Init(n).pcs);
  }

  /** The invariant holds in every state of every run that uses the barrier. */
  lemma {:induction false} InvAlways(s: State, run: seq<Action>)
    requires Inv(s) && Runs(s, run) && WithBarrier(run)
    ensures Inv(After(s, run))
    decreases |run|
  {
    if run != [] {
      InvKept(s, run[0]);
      InvAlways(Next(s, run[0]), run[1..]);
    }
  }
}
