// src/thread/pthread_mutex.c and src/thread/pthread_cond.c: what every step is to keep.

/** What every step keeps. */
module BroadcastInvariant {
  import opened BroadcastModel

  function Sum(f: Pc -> nat, pcs: seq<Pc>): nat {
    if pcs == [] then 0 else f(pcs[0]) + Sum(f, pcs[1..])
  }

  lemma {:induction false} SumUpdate(f: Pc -> nat, pcs: seq<Pc>, t: nat, pc: Pc)
    requires t < |pcs|
    ensures Sum(f, pcs[t := pc]) + f(pcs[t]) == Sum(f, pcs) + f(pc)
  {
    if t == 0 {
      assert pcs[t := pc][1..] == pcs[1..];
    } else {
      SumUpdate(f, pcs[1..], t - 1, pc);
      assert pcs[t := pc][1..] == pcs[1..][t - 1 := pc];
    }
  }

  /** Counted in the mutex's `waiters`. */
  function Waiting(pc: Pc): nat { if pc.Blocked? || pc.Woken? then 1 else 0 }

  /** A worker that has not incremented start_num. */
  predicate Uncounted(pc: Pc) {
    (pc.Try? || pc.Blocked? || pc.Woken? || pc.Locked?) && pc.c == First
  }

  /** A worker that has not been woken out of pthread_cond_wait. */
  predicate Waits(pc: Pc) { pc.Linked? || pc == Posting(First) || pc.Asleep? }

  function Started(pc: Pc): nat {
    if Uncounted(pc) || OfMain(pc) then 0 else 1
  }

  function Awake(pc: Pc): nat {
    if pc.Bumped? || pc == Posting(Again) || pc.Done? then 1 else 0
  }

  predicate OfMain(pc: Pc) {
    match pc
    case Try(c) => c == Barrier
    case Blocked(c) => c == Barrier
    case Woken(c) => c == Barrier
    case Locked(c) => c == Barrier
    case Posting(c) => c == Barrier
    case Spinning => true
    case Broadcasting => true
    case Joining => true
    case Finished => true
    case _ => false
  }

  /** Main is waiting for the barrier's lock: every worker has been counted. */
  predicate AtBarrier(pc: Pc) { pc == Try(Barrier) || pc == Blocked(Barrier) || pc == Woken(Barrier) }

  predicate BeforeBroadcast(pc: Pc) {
    AtBarrier(pc) || pc.Spinning? || pc == Locked(Barrier) || pc == Posting(Barrier) || pc.Broadcasting?
  }

  predicate Roles(s: State)
    requires Shaped(s)
  {
    OfMain(s.pcs[s.n]) && forall t :: 0 <= t < s.n ==> !OfMain(s.pcs[t])
  }

  /** Mutual exclusion: the owner is exactly the thread between lock and unlock. */
  predicate Exclusive(s: State)
    requires Shaped(s)
  {
    -1 <= s.owner <= s.n && forall t :: 0 <= t <= s.n ==> (Holds(s.pcs[t]) <==> s.owner == t)
  }

  predicate Counts(s: State)
    requires Shaped(s)
  {
    s.waiters == Sum(Waiting, s.pcs) && s.startNum == Sum(Started, s.pcs) && s.wakenNum == Sum(Awake, s.pcs)
  }

  /** A thread that will look at the mutex again, or is about to post for one that will. */
  predicate Active(pc: Pc) { pc.Try? || pc.Woken? || pc.Posting? }

  /** No lost mutex wakeup: a free mutex with a blocked thread has a token, or a thread
      that is on its way to the mutex or to posting one. */
  predicate Handoff(s: State)
    requires Shaped(s)
  {
    (s.owner == NOBODY && s.sem == 0 && exists t :: 0 <= t <= s.n && s.pcs[t].Blocked?)
    ==> exists u :: 0 <= u <= s.n && Active(s.pcs[u])
  }

  /** The waiter list holds the waiting workers the broadcast has not reached. */
  predicate Listed(s: State)
    requires Shaped(s)
  {
    && (forall t :: t in s.queue ==> t < s.n)
    && (forall t :: 0 <= t < s.n && s.token[t] ==> Waits(s.pcs[t]))
    && forall t :: 0 <= t < s.n ==> (t in s.queue <==> Waits(s.pcs[t]) && !s.token[t])
  }

  /** What main's position says about the workers: it leaves its spin when all are counted, ... */
  predicate AllCounted(s: State)
    requires Shaped(s)
  {
    s.pcs[s.n].Spinning? || forall t :: 0 <= t < s.n ==> !Uncounted(s.pcs[t])
  }

  /** ... it passes the barrier when all are on the waiter list or beyond it, ... */
  predicate AllLinked(s: State)
    requires Shaped(s)
  {
    s.pcs[s.n].Spinning? || AtBarrier(s.pcs[s.n]) || forall t :: 0 <= t < s.n ==> !s.pcs[t].Counted?
  }

  /** ... and nobody has a token before it broadcasts, nor waits without one afterwards. */
  predicate AllPosted(s: State)
    requires Shaped(s)
  {
    forall t :: 0 <= t < s.n ==> if BeforeBroadcast(s.pcs[s.n]) then !s.token[t] else Waits(s.pcs[t]) ==> s.token[t]
  }

  predicate AllDone(s: State)
    requires Shaped(s)
  {
    s.pcs[s.n].Finished? ==> forall t :: 0 <= t < s.n ==> s.pcs[t].Done?
  }

  predicate Phases(s: State)
    requires Shaped(s)
  {
    AllCounted(s) && AllLinked(s) && AllPosted(s) && AllDone(s)
  }

  predicate Inv(s: State) {
    Shaped(s) && Roles(s) && Exclusive(s) && Counts(s) && Handoff(s) && Listed(s) && Phases(s)
  }
}
