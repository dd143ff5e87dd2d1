// fuzz/linux_pilot_test_pthread_cond.c over src/thread/pthread_mutex.c and src/thread/pthread_cond.c:
// one broadcast to any number of waiters, as a step system over whole fast-lock sections.

/** The threads, the mutex and the condition variable, and every step a thread can take. */
module BroadcastModel {
  /** The three pthread_mutex_lock calls: a worker's own, the re-lock inside
      pthread_cond_wait, and main's barrier. */
  datatype Call = First | Again | Barrier

  datatype Pc =
    // pthread_mutex_lock
    | Try(c: Call)        // about to look at the owner, under the fast lock
    | Blocked(c: Call)    // counted as a waiter, waiting for the mutex's semaphore
    | Woken(c: Call)      // the wait returned; about to uncount itself and retry
    | Locked(c: Call)     // owns the mutex
    // a worker, holding the mutex
    | Counted             // start_num has been incremented
    | Linked              // on the condition variable's waiter list
    | Bumped              // waken_num has been incremented
    // pthread_mutex_unlock, after the owner was cleared with waiters present
    | Posting(c: Call)
    // a worker
    | Asleep              // waiting for its own semaphore
    | Done
    // main
    | Spinning | Broadcasting | Joining | Finished

  /** Threads 0..n-1 are the workers and thread n is main.  `queue` is the waiter list,
      newest first; `token[t]` is worker t's own semaphore, whose maximum is one. */
  datatype State = State(
    n: nat, pcs: seq<Pc>, owner: int, waiters: nat, sem: nat,
    queue: seq<nat>, token: seq<bool>, startNum: nat, wakenNum: nat)

  const NOBODY := -1
  const SEMAPHORE_MAX := 0x7fff_ffff

  datatype Action =
    | TryLock(t: nat) | TakeToken(t: nat) | Interrupt(t: nat) | Uncount(t: nat)
    | Count(t: nat) | Link(t: nat) | Unlock(t: nat) | Post(t: nat)
    | Wake(t: nat) | Spurious(t: nat) | Bump(t: nat)
    | Spin | LeaveSpin(barrier: bool) | Broadcast | Join

  function Init(n: nat): State {
    State(n, seq(n, _ => Try(First)) + [Spinning], NOBODY, 0, 0, [], seq(n, _ => false), 0, 0)
  }

  predicate Shaped(s: State) { |s.pcs| == s.n + 1 && |s.token| == s.n }

  /** The mutex is held between these points. */
  predicate Holds(pc: Pc) { pc.Locked? || pc.Counted? || pc.Linked? || pc.Bumped? }

  /** The call whose unlock comes next. */
  predicate Unlocks(pc: Pc) { pc.Linked? || pc.Bumped? || pc == Locked(Barrier) }

  function Released(pc: Pc): Call
    requires Unlocks(pc)
  {
    match pc case Linked => First case Bumped => Again case _ => Barrier
  }

  /** Where a thread goes on after pthread_mutex_unlock. */
  function Past(c: Call): Pc {
    match c case First => Asleep case Again => Done case Barrier => Broadcasting
  }

  predicate Enabled(s: State, a: Action)
    requires Shaped(s)
  {
    match a
    case TryLock(t) => t <= s.n && s.pcs[t].Try?
    case TakeToken(t) => t <= s.n && s.pcs[t].Blocked? && 0 < s.sem
    case Interrupt(t) => t <= s.n && s.pcs[t].Blocked?
    case Uncount(t) => t <= s.n && s.pcs[t].Woken?
    case Count(t) => t < s.n && s.pcs[t] == Locked(First)
    case Link(t) => t < s.n && s.pcs[t].Counted?
    case Unlock(t) => t <= s.n && Unlocks(s.pcs[t])
    case Post(t) => t <= s.n && s.pcs[t].Posting?
    case Wake(t) => t < s.n && s.pcs[t].Asleep? && s.token[t]
    case Spurious(t) => t < s.n && s.pcs[t].Asleep?
    case Bump(t) => t < s.n && s.pcs[t] == Locked(Again)
    case Spin => s.pcs[s.n].Spinning? && s.startNum < s.n
    case LeaveSpin(_) => s.pcs[s.n].Spinning? && s.n <= s.startNum
    case Broadcast => s.pcs[s.n].Broadcasting?
    case Join => s.pcs[s.n].Joining? && forall t :: 0 <= t < s.n ==> s.pcs[t].Done?
  }

  function Without(q: seq<nat>, t: nat): seq<nat> {
    if q == [] then [] else (if q[0] == t then [] else [q[0]]) + Without(q[1..], t)
  }

  function Goto(s: State, t: nat, pc: Pc): State
    requires t < |s.pcs|
  {
    s.(pcs := s.pcs[t := pc])
  }

  function Next(s: State, a: Action): (s': State)
    requires Shaped(s) && Enabled(s, a)
    ensures Shaped(s') && s'.n == s.n
  {
    match a
    case TryLock(t) =>
      if s.owner == NOBODY then Goto(s, t, Locked(s.pcs[t].c)).(owner := t)
      else Goto(s, t, Blocked(s.pcs[t].c)).(waiters := s.waiters + 1)
    case TakeToken(t) => Goto(s, t, Woken(s.pcs[t].c)).(sem := s.sem - 1)
    case Interrupt(t) => Goto(s, t, Woken(s.pcs[t].c))
    case Uncount(t) => Goto(s, t, Try(s.pcs[t].c)).(waiters := if s.waiters == 0 then 0 else s.waiters - 1)
    case Count(t) => Goto(s, t, Counted).(startNum := s.startNum + 1)
    case Link(t) => Goto(s, t, Linked).(queue := [t] + s.queue)
    case Unlock(t) =>
      var c := Released(s.pcs[t]);
      Goto(s, t, if s.waiters != 0 then Posting(c) else Past(c)).(owner := NOBODY)
    case Post(t) =>
      Goto(s, t, Past(s.pcs[t].c)).(sem := if s.sem < SEMAPHORE_MAX then s.sem + 1 else s.sem)
    case Wake(t) => Goto(s, t, Try(Again)).(token := s.token[t := false])
    case Spurious(t) => Goto(s, t, Try(Again)).(token := s.token[t := false], queue := Without(s.queue, t))
    case Bump(t) => Goto(s, t, Bumped).(wakenNum := s.wakenNum + 1)
    case Spin => s
    case LeaveSpin(barrier) => Goto(s, s.n, if barrier then Try(Barrier) else Broadcasting)
    case Broadcast =>
      Goto(s, s.n, Joining).(
        token := seq(s.n, t requires 0 <= t < s.n && |s.token| == s.n => s.token[t] || t in s.queue),
        queue := [])
    case Join => Goto(s, s.n, Finished)
  }

  /** A run: every action is enabled where it is taken. */
  predicate Runs(s: State, run: seq<Action>)
    requires Shaped(s)
    decreases |run|
  {
    run == [] || (Enabled(s, run[0]) && Runs(Next(s, run[0]), run[1..]))
  }

  function After(s: State, run: seq<Action>): (s': State)
    requires Shaped(s) && Runs(s, run)
    ensures Shaped(s') && s'.n == s.n
    decreases |run|
  {
    if run == [] then s else After(Next(s, run[0]), run[1..])
  }

  /** Main leaves its spin through the lock/unlock barrier, as the test does. */
  predicate WithBarrier(run: seq<Action>) { forall i :: 0 <= i < |run| ==> run[i] != LeaveSpin(false) }
}
