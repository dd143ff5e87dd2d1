// The pilots' atomic slot pool: fuzz/linux_pilot_harness_pthread_cond.c (and _mutex.c, with fewer slots).

/** calloc over a pool of slots handed out by an atomic counter, as interleaved steps of n calls. */
module Pool {
  import opened Counting

  const SLOT_BYTES: nat := 256

  /** One past the largest value of the counter, a 32-bit int. */
  const INT_END: int := 0x8000_0000

  function Increment(x: int): int { if x == INT_END - 1 then -INT_END else x + 1 }

  /** Where one call stands. */
  datatype Call = Start | Taken(slot: int) | Zeroing(slot: int, i: nat) | Has(slot: int) | Late(slot: int) | TooLarge

  /** `stray` is set by a write outside the pool. */
  datatype State = State(next: int, calls: seq<Call>, pool: seq<seq<int>>, stray: bool)

  /** A call takes its next step, or a caller writes to memory it was given. */
  datatype Action = Step(c: nat) | Use(c: nat, j: nat, v: int)

  ghost predicate Enabled(s: State, a: Action) {
    a.c < |s.calls| &&
    match a
    case Step(c) => !s.calls[c].Has? && !s.calls[c].Late? && !s.calls[c].TooLarge?
    case Use(c, j, v) => s.calls[c].Has? && 0 <= s.calls[c].slot < |s.pool| && j < |s.pool[s.calls[c].slot]|
  }

  /** `sizes` is what each call asks for, in bytes. */
  ghost function Next(s: State, sizes: seq<nat>, a: Action): State
    requires Enabled(s, a) && |sizes| == |s.calls|
  {
    match a
    case Use(c, j, v) => s.(pool := Set(s.pool, s.calls[c].slot, j, v))
    case Step(c) =>
      match s.calls[c]
      case Start =>
        if sizes[c] > SLOT_BYTES then s.(calls := s.calls[c := TooLarge])
        else s.(next := Increment(s.next), calls := s.calls[c := Taken(s.next)])
      case Taken(slot) => s.(calls := s.calls[c := if slot >= |s.pool| then Late(slot) else Zeroing(slot, 0)])
      case Zeroing(slot, i) =>
        if i == SLOT_BYTES then s.(calls := s.calls[c := Has(slot)])
        else if 0 <= slot < |s.pool| && i < |s.pool[slot]| then
          s.(calls := s.calls[c := Zeroing(slot, i + 1)], pool := Set(s.pool, slot, i, 0))
        else s.(calls := s.calls[c := Zeroing(slot, i + 1)], stray := true)
      case Has(_) => s
      case Late(_) => s
      case TooLarge => s
  }

  function Set(pool: seq<seq<int>>, slot: int, j: nat, v: int): seq<seq<int>>
    requires 0 <= slot < |pool| && j < |pool[slot]|
  {
    pool[slot := pool[slot][j := v]]
  }

  // ---- the invariant

  predicate Ticketed(c: Call) { !c.Start? && !c.TooLarge? }

  /** The calls that took a ticket. */
  function Tickets(calls: seq<Call>): (n: nat)
    ensures n <= |calls|
  {
    if calls == [] then 0 else Tickets(calls[..|calls| - 1]) + if Ticketed(calls[|calls| - 1]) then 1 else 0
  }

  lemma {:induction false} TicketsUpdate(calls: seq<Call>, c: nat, call: Call)
    requires c < |calls|
    ensures Tickets(calls[c := call]) + (if Ticketed(calls[c]) then 1 else 0)
         == Tickets(calls) + (if Ticketed(call) then 1 else 0)
  {
    var last := |calls| - 1;
    if c == last {
      assert calls[c := call][..last] == calls[..last];
    } else {
      TicketsUpdate(calls[..last], c, call);
      assert calls[c := call][..last] == calls[..last][c := call];
    }
  }

  predicate Fits(size: nat) { size <= SLOT_BYTES }

  /** The requests a slot is large enough for. */
  function Fitting(sizes: seq<nat>): nat {
    if sizes == [] then 0 else Fitting(sizes[..|sizes| - 1]) + if Fits(sizes[|sizes| - 1]) then 1 else 0
  }

  /** Only calls that ask for no more than a slot take a ticket. */
  ghost predicate TicketsFit(calls: seq<Call>, sizes: seq<nat>) {
    |calls| == |sizes| && forall c :: 0 <= c < |calls| && Ticketed(calls[c]) ==> Fits(sizes[c])
  }

  lemma {:induction false} TicketsAtMost(calls: seq<Call>, sizes: seq<nat>)
    requires TicketsFit(calls, sizes)
    ensures Tickets(calls) <= Fitting(sizes)
  {
    if calls != [] {
      var last := |calls| - 1;
      TicketsAtMost(calls[..last], sizes[..last]);
    }
  }

  /** Some call that will take a ticket has not yet, so fewer tickets are out than will be taken. */
  lemma {:induction false} TicketLeft(calls: seq<Call>, sizes: seq<nat>, c: nat)
    requires TicketsFit(calls, sizes) && c < |calls| && !Ticketed(calls[c]) && Fits(sizes[c])
    ensures Tickets(calls) < Fitting(sizes)
  {
    var last := |calls| - 1;
    if c < last {
      TicketLeft(calls[..last], sizes[..last], c);
    } else {
      TicketsAtMost(calls[..last], sizes[..last]);
    }
  }

  ghost predicate CallGood(s: State, call: Call) {
    && (Ticketed(call) ==> 0 <= call.slot < Tickets(s.calls))
    && (call.Zeroing? || call.Has? ==> call.slot < |s.pool|)
    && (call.Zeroing? ==> call.i <= SLOT_BYTES)
    && (call.Zeroing? ==>
          forall j :: 0 <= j < call.i && call.slot < |s.pool| && j < |s.pool[call.slot]| ==>
            s.pool[call.slot][j] == 0)
  }

  ghost predicate Apart(calls: seq<Call>) {
    forall c, d :: 0 <= c < d < |calls| && Ticketed(calls[c]) && Ticketed(calls[d]) ==>
      calls[c].slot != calls[d].slot
  }

  ghost predicate Inv(s: State, sizes: seq<nat>) {
    && !s.stray && Fitting(sizes) <= INT_END && TicketsFit(s.calls, sizes)
    && (forall k :: 0 <= k < |s.pool| ==> |s.pool[k]| == SLOT_BYTES)
    && (Tickets(s.calls) < INT_END ==> s.next == Tickets(s.calls))
    && (forall c :: 0 <= c < |s.calls| ==> CallGood(s, s.calls[c]))
    && Apart(s.calls)
  }

  /** A fresh process: n calls about to be made, a pool of any contents. */
  ghost function Initial(n: nat, pool: seq<seq<int>>): State { State(0, seq(n, _ => Start), pool, false) }

  lemma {:induction false} NoTickets(n: nat)
    ensures Tickets(seq(n, _ => Start)) == 0
  {
    if n > 0 {
      NoTickets(n - 1);
      assert seq(n, _ => Start)[..n - 1] == seq(n - 1, _ => Start);
    }
  }

  lemma {:induction false} InitialInv(sizes: seq<nat>, pool: seq<seq<int>>)
    requires Fitting(sizes) <= INT_END && forall k :: 0 <= k < |pool| ==> |pool[k]| == SLOT_BYTES
    ensures Inv(Initial(|sizes|, pool), sizes)
  {
    NoTickets(|sizes|);
  }

  /** A call the pool has no slot for is turned away. */
  lemma {:induction false} RefuseKeeps(s: State, sizes: seq<nat>, c: nat)
    requires Inv(s, sizes) && c < |s.calls| && s.calls[c].Start? && !Fits(sizes[c])
    ensures Inv(Next(s, sizes, Step(c)), sizes)
  {
    var s' := Next(s, sizes, Step(c));
    TicketsUpdate(s.calls, c, TooLarge);
    hide Tickets, Fitting;
    forall d | 0 <= d < |s.calls| ensures CallGood(s', s'.calls[d]) {
      assert CallGood(s, s.calls[d]);
    }
  }

  lemma {:induction false} TakeKeeps(s: State, sizes: seq<nat>, c: nat)
    requires Inv(s, sizes) && c < |s.calls| && s.calls[c].Start? && Fits(sizes[c])
    ensures Inv(Next(s, sizes, Step(c)), sizes)
  {
    var s' := Next(s, sizes, Step(c));
    TicketsUpdate(s.calls, c, Taken(s.next));
    TicketLeft(s.calls, sizes, c);
    assert forall d :: 0 <= d < |s.calls| ==> CallGood(s, s.calls[d]);
    hide Tickets, Fitting;
    forall d | 0 <= d < |s.calls| ensures CallGood(s', s'.calls[d]) {
      assert CallGood(s, s.calls[d]);
    }
  }

  lemma {:induction false} MoveKeeps(s: State, sizes: seq<nat>, c: nat)
    requires Inv(s, sizes) && Enabled(s, Step(c)) && !s.calls[c].Start?
    ensures Inv(Next(s, sizes, Step(c)), sizes)
  {
    var s' := Next(s, sizes, Step(c));
    assert CallGood(s, s.calls[c]);
    TicketsUpdate(s.calls, c, s'.calls[c]);
    hide Tickets, Fitting, Fits;
    forall d | 0 <= d < |s.calls| ensures CallGood(s', s'.calls[d]) {
      assert CallGood(s, s.calls[d]);
      if d != c { assert Ticketed(s.calls[d]) ==> s.calls[d].slot != s.calls[c].slot; }
    }
  }

  lemma {:induction false} UseKeeps(s: State, sizes: seq<nat>, a: Action)
    requires Inv(s, sizes) && Enabled(s, a) && a.Use?
    ensures Inv(Next(s, sizes, a), sizes)
  {
    var s' := Next(s, sizes, a);
    hide Tickets;
    forall d | 0 <= d < |s.calls| ensures CallGood(s', s'.calls[d]) {
      assert CallGood(s, s.calls[d]) && CallGood(s, s.calls[a.c]);
    }
  }

  // ---- whole runs

  ghost predicate Runs(s: State, sizes: seq<nat>, run: seq<Action>)
    requires |sizes| == |s.calls|
    decreases |run|
  {
    run == [] || (Enabled(s, run[0]) && Runs(Next(s, sizes, run[0]), sizes, run[1..]))
  }

  ghost function After(s: State, sizes: seq<nat>, run: seq<Action>): State
    requires |sizes| == |s.calls| && Runs(s, sizes, run)
    decreases |run|
  {
    if run == [] then s else After(Next(s, sizes, run[0]), sizes, run[1..])
  }

  lemma {:induction false} InvAlways(s: State, sizes: seq<nat>, run: seq<Action>)
    requires Inv(s, sizes) && Runs(s, sizes, run)
    ensures Inv(After(s, sizes, run), sizes)
    decreases |run|
  {
    if run != [] {
      var a := run[0];
      if a.Use? {
        UseKeeps(s, sizes, a);
      } else if s.calls[a.c].Start? {
        if Fits(sizes[a.c]) { TakeKeeps(s, sizes, a.c); } else { RefuseKeeps(s, sizes, a.c); }
      } else {
        MoveKeeps(s, sizes, a.c);
      }
      InvAlways(Next(s, sizes, a), sizes, run[1..]);
    }
  }

  // ---- what it means for callers

  ghost predicate ZeroSlot(bytes: seq<int>) {
    |bytes| == SLOT_BYTES && forall j :: 0 <= j < SLOT_BYTES ==> bytes[j] == 0
  }

  /** Different calls that have succeeded. */
  ghost predicate Holders(s: State, ids: seq<nat>) {
    && (forall k :: 0 <= k < |ids| ==> ids[k] < |s.calls| && s.calls[ids[k]].Has?)
    && (forall j, k :: 0 <= j < k < |ids| ==> ids[j] != ids[k])
  }

  lemma {:induction false} FewHolders(s: State, sizes: seq<nat>, ids: seq<nat>)
    requires Inv(s, sizes) && Holders(s, ids)
    ensures |ids| <= |s.pool|
  {
    var l := seq(|ids|, k requires 0 <= k < |ids| && ids[k] < |s.calls| && s.calls[ids[k]].Has? =>
      s.calls[ids[k]].slot);
    forall k | 0 <= k < |l| ensures 0 <= l[k] < |s.pool| {
      assert CallGood(s, s.calls[ids[k]]);
    }
    hide Tickets, CallGood;
    assert forall j, k :: 0 <= j < k < |l| ==> l[j] != l[k];
    Pigeonhole(l, |s.pool|);
  }

  lemma {:induction false} ReturnsZeroed(s: State, sizes: seq<nat>, c: nat)
    requires Inv(s, sizes) && c < |s.calls| && s.calls[c].Zeroing? && s.calls[c].i == SLOT_BYTES
    ensures 0 <= s.calls[c].slot < |s.pool| && ZeroSlot(s.pool[s.calls[c].slot])
  {
    assert CallGood(s, s.calls[c]);
  }

  /** The state after any interleaving of calls of which at most 2^31 ask for no more than a slot, callers
      scribbling on what they hold: nothing was written outside the pool and no two calls have the same
      slot. */
  lemma {:induction false} PoolSafe(sizes: seq<nat>, pool: seq<seq<int>>, run: seq<Action>)
    requires Fitting(sizes) <= INT_END && (forall k :: 0 <= k < |pool| ==> |pool[k]| == SLOT_BYTES)
    requires Runs(Initial(|sizes|, pool), sizes, run)
    ensures Inv(After(Initial(|sizes|, pool), sizes, run), sizes)
    ensures !After(Initial(|sizes|, pool), sizes, run).stray
  {
    InitialInv(sizes, pool);
    InvAlways(Initial(|sizes|, pool), sizes, run);
  }

  // ---- past 2^31 tickets

  /** The counter after k increments, k at most 2^31. */
  function Counter(k: nat): int { if k < INT_END then k else -INT_END }

  /** The first k calls have taken their tickets or been refused, nothing else has happened. */
  ghost predicate TookTickets(s: State, sizes: seq<nat>, k: nat, pool: seq<seq<int>>) {
    && k <= |sizes| == |s.calls| && s.next == Counter(Fitting(sizes[..k])) && s.pool == pool && !s.stray
    && (forall c :: k <= c < |sizes| ==> s.calls[c] == Start)
  }

  ghost predicate Reaches(s: State, sizes: seq<nat>, t: State)
    requires |sizes| == |s.calls|
  {
    exists run :: Runs(s, sizes, run) && After(s, sizes, run) == t
  }

  lemma {:induction false} RunsOne(s: State, sizes: seq<nat>, t: State, a: Action)
    requires |sizes| == |s.calls| && Reaches(s, sizes, t) && |t.calls| == |s.calls| && Enabled(t, a)
    ensures Reaches(s, sizes, Next(t, sizes, a))
  {
    var run :| Runs(s, sizes, run) && After(s, sizes, run) == t;
    RunsSnoc(s, sizes, run, a);
  }

  lemma {:induction false} RunsSnoc(s: State, sizes: seq<nat>, run: seq<Action>, a: Action)
    requires |sizes| == |s.calls| && Runs(s, sizes, run)
    requires |After(s, sizes, run).calls| == |sizes| && Enabled(After(s, sizes, run), a)
    ensures Runs(s, sizes, run + [a]) && After(s, sizes, run + [a]) == Next(After(s, sizes, run), sizes, a)
    decreases |run|
  {
    if run == [] {
      assert (run + [a])[1..] == [];
    } else {
      RunsSnoc(Next(s, sizes, run[0]), sizes, run[1..], a);
      assert (run + [a])[1..] == run[1..] + [a] && (run + [a])[0] == run[0];
    }
  }

  lemma {:induction false} TicketsTaken(sizes: seq<nat>, k: nat, pool: seq<seq<int>>) returns (s: State)
    requires k <= |sizes| && Fitting(sizes[..k]) <= INT_END
    ensures TookTickets(s, sizes, k, pool) && Reaches(Initial(|sizes|, pool), sizes, s)
  {
    if k == 0 {
      s := Initial(|sizes|, pool);
      assert Runs(s, sizes, []) && After(s, sizes, []) == s;
    } else {
      assert sizes[..k][..k - 1] == sizes[..k - 1];
      var before := TicketsTaken(sizes, k - 1, pool);
      RunsOne(Initial(|sizes|, pool), sizes, before, Step(k - 1));
      s := Next(before, sizes, Step(k - 1));
    }
  }

  /** The call that takes ticket m when the calls take theirs in order. */
  lemma {:induction false} TicketHolder(sizes: seq<nat>, m: nat) returns (c: nat)
    requires m < Fitting(sizes)
    ensures c < |sizes| && Fits(sizes[c]) && Fitting(sizes[..c]) == m
  {
    var last := |sizes| - 1;
    if m < Fitting(sizes[..last]) {
      c := TicketHolder(sizes[..last], m);
      assert sizes[..last][..c] == sizes[..c];
    } else {
      c := last;
    }
  }

  /** With more than 2^31 requests that fit some run writes outside the pool: the counter has wrapped to a
      negative number, which passes the only test made of it. */
  lemma {:induction false} PoolOverrun(sizes: seq<nat>, pool: seq<seq<int>>) returns (s: State)
    requires Fitting(sizes) > INT_END
    ensures Reaches(Initial(|sizes|, pool), sizes, s) && s.stray
  {
    var i := Initial(|sizes|, pool);
    var c := TicketHolder(sizes, INT_END);
    s := TicketsTaken(sizes, c, pool);
    RunsOne(i, sizes, s, Step(c));
    s := Next(s, sizes, Step(c));
    RunsOne(i, sizes, s, Step(c));
    s := Next(s, sizes, Step(c));
    RunsOne(i, sizes, s, Step(c));
    s := Next(s, sizes, Step(c));
  }

  /** Every run of the calls stays inside the pool exactly when at most 2^31 of them ask for no more than a
      slot: larger requests are turned away before they take a ticket. */
  lemma {:induction false} PoolExact(sizes: seq<nat>, pool: seq<seq<int>>)
    requires forall k :: 0 <= k < |pool| ==> |pool[k]| == SLOT_BYTES
    ensures (forall s :: Reaches(Initial(|sizes|, pool), sizes, s) ==> !s.stray) <==> Fitting(sizes) <= INT_END
  {
    var i := Initial(|sizes|, pool);
    if Fitting(sizes) <= INT_END {
      forall s | Reaches(i, sizes, s) ensures !s.stray {
        var run :| Runs(i, sizes, run) && After(i, sizes, run) == s;
        PoolSafe(sizes, pool, run);
      }
    } else {
      var s := PoolOverrun(sizes, pool);
      assert Reaches(i, sizes, s) && s.stray;
    }
  }
}
