// fuzz/linux_pilot_test_misc.c: the descriptor table beside the kernel's own.

/** The table and the kernel's own descriptors, step by step. */
module Lockstep {
  import opened FdTable

  /** `kernel[i]` is whether the kernel has descriptor i open; slots from `limit` on are not handed out. */
  datatype State = State(table: seq<nat>, kernel: seq<bool>, limit: nat)

  predicate Occupied(s: State, i: nat) { i < |s.table| && s.table[i] != 0 }

  predicate Open(s: State, i: nat) { i < |s.kernel| && s.kernel[i] }

  /** The kernel's lowest free number from `from` on, or its limit. */
  ghost function FirstClosed(k: seq<bool>, from: nat): (i: nat)
    requires from <= |k|
    ensures from <= i <= |k| && (i < |k| ==> !k[i])
    decreases |k| - from
  {
    if from == |k| || !k[from] then from else FirstClosed(k, from + 1)
  }

  lemma {:induction false} FirstClosedSkips(k: seq<bool>, from: nat, i: nat)
    requires from <= |k| && from <= i < FirstClosed(k, from)
    ensures k[i]
    decreases |k| - from
  {
    if from < i { FirstClosedSkips(k, from + 1, i); }
  }

  /** A step of the process.  Opened and Event make a kernel descriptor and install it, Opened with
      the handle descriptor + 1 and Event with the bare number; Close goes through the table; the raw
      steps are system calls that bypass it; setrlimit moves the limit. */
  datatype Step = Opened | Event | Close(fd: int) | RawOpen | RawClose(raw: nat) | SetLimit(n: nat)

  ghost function Raw(s: State): nat { FirstClosed(s.kernel, 0) }

  /** The part of the table that may be handed out. */
  ghost function Usable(s: State): seq<nat> { if s.limit <= |s.table| then s.table[..s.limit] else s.table }

  ghost function Slot(s: State): nat { FirstFree(Usable(s), 0) }

  /** The kernel closes a number; closing what is not open changes nothing. */
  function Shut(k: seq<bool>, fd: int): seq<bool> { if 0 <= fd < |k| then k[fd := false] else k }

  ghost function Next(s: State, step: Step): State {
    match step
    case Opened =>
      if Raw(s) == |s.kernel| || Slot(s) == |Usable(s)| then s
      else s.(table := s.table[Slot(s) := Raw(s) + 1], kernel := s.kernel[Raw(s) := true])
    case Event =>
      if Raw(s) == |s.kernel| || Slot(s) == |Usable(s)| then s
      else s.(table := s.table[Slot(s) := Raw(s)], kernel := s.kernel[Raw(s) := true])
    case Close(fd) =>
      if 0 <= fd < |s.table| && s.table[fd] != 0 then
        s.(table := s.table[fd := 0], kernel := Shut(s.kernel, s.table[fd] - 1))
      else s
    case RawOpen => if Raw(s) == |s.kernel| then s else s.(kernel := s.kernel[Raw(s) := true])
    case RawClose(fd) => s.(kernel := Shut(s.kernel, fd))
    case SetLimit(n) => s.(limit := n)
  }

  /** The kernel has open exactly the table's slots and the raw descriptors still held. */
  ghost predicate InStep(s: State, temps: set<nat>) {
    && (forall i: nat :: Open(s, i) <==> Occupied(s, i) || i in temps)
    && (forall i: nat :: Occupied(s, i) ==> i !in temps)
  }

  /** Every handle names the slot it is in. */
  ghost predicate Boxed(s: State) { forall i :: 0 <= i < |s.table| && s.table[i] != 0 ==> s.table[i] == i + 1 }

  /** The raw descriptors held after a step. */
  ghost function Temps(s: State, step: Step, temps: set<nat>): set<nat> {
    match step
    case RawOpen => if Raw(s) == |s.kernel| then temps else temps + {Raw(s)}
    case RawClose(fd) => temps - {fd}
    case _ => temps
  }

  /** The discipline: install only when no raw descriptor is held, raw-close only raw descriptors, and
      never install a bare number. */
  ghost predicate Disciplined(step: Step, temps: set<nat>) {
    match step
    case Opened => temps == {}
    case Event => false
    case Close(_) => true
    case RawOpen => true
    case RawClose(fd) => fd in temps
    case SetLimit(_) => true
  }

  /** In step, both sides pick the same number. */
  lemma {:induction false} SameNumber(s: State)
    requires InStep(s, {}) && Raw(s) < |s.kernel| && Slot(s) < |Usable(s)|
    ensures Slot(s) == Raw(s)
  {
    assert !Open(s, Raw(s)) && !Occupied(s, Slot(s));
    if Slot(s) < Raw(s) {
      FirstClosedSkips(s.kernel, 0, Slot(s));
    } else if Raw(s) < Slot(s) {
      FirstFreeSkips(Usable(s), 0, Raw(s));
    }
  }

  lemma {:induction false} OpenKeeps(s: State)
    requires InStep(s, {}) && Boxed(s)
    ensures InStep(Next(s, Opened), {}) && Boxed(Next(s, Opened))
  {
    if Raw(s) < |s.kernel| && Slot(s) < |Usable(s)| {
      SameNumber(s);
      var r, s' := Raw(s), Next(s, Opened);
      hide FirstFree, FirstClosed;
      assert forall i: nat :: Open(s', i) == (i == r || Open(s, i)) && Occupied(s', i) == (i == r || Occupied(s, i));
    }
  }

  /** Closing through the table keeps the two in step exactly when the handle names its slot. */
  lemma {:induction false} CloseExact(s: State, fd: nat, temps: set<nat>)
    requires InStep(s, temps) && Occupied(s, fd)
    ensures InStep(Next(s, Close(fd)), temps) <==> s.table[fd] == fd + 1
  {
    var s' := Next(s, Close(fd));
    assert Open(s, fd);
    assert !Occupied(s', fd) && fd !in temps;
    if s.table[fd] == fd + 1 {
      assert forall i: nat :: Open(s', i) == (i != fd && Open(s, i)) && Occupied(s', i) == (i != fd && Occupied(s, i));
    } else {
      assert Open(s', fd);
    }
  }

  lemma {:induction false} RawKeeps(s: State, step: Step, temps: set<nat>)
    requires InStep(s, temps) && (step == RawOpen || (step.RawClose? && step.raw in temps))
    ensures InStep(Next(s, step), Temps(s, step, temps))
  {
    var s' := Next(s, step);
    if step == RawOpen {
      assert !Open(s, Raw(s));
      hide FirstFree, FirstClosed;
      assert forall i: nat :: Open(s', i) == (Open(s, i) || (i == Raw(s) && Raw(s) < |s.kernel|));
    } else {
      assert Open(s, step.raw);
      assert forall i: nat :: Open(s', i) == (i != step.raw && Open(s, i));
    }
  }

  /** A disciplined run from `s` with raw descriptors `temps` held. */
  ghost predicate Runs(s: State, steps: seq<Step>, temps: set<nat>)
    decreases |steps|
  {
    steps == [] || (Disciplined(steps[0], temps) && Runs(Next(s, steps[0]), steps[1..], Temps(s, steps[0], temps)))
  }

  ghost function After(s: State, steps: seq<Step>): State
    decreases |steps|
  {
    if steps == [] then s else After(Next(s, steps[0]), steps[1..])
  }

  ghost function Held(s: State, steps: seq<Step>, temps: set<nat>): set<nat>
    decreases |steps|
  {
    if steps == [] then temps else Held(Next(s, steps[0]), steps[1..], Temps(s, steps[0], temps))
  }

  /** Disciplined runs of any length stay in step, so that whenever no raw descriptor is held the next
      installed slot is the kernel's own number. */
  lemma {:induction false} StaysInStep(s: State, steps: seq<Step>, temps: set<nat>)
    requires InStep(s, temps) && Boxed(s) && Runs(s, steps, temps)
    ensures InStep(After(s, steps), Held(s, steps, temps)) && Boxed(After(s, steps))
    decreases |steps|
  {
    if steps != [] {
      StepKeeps(s, steps[0], temps);
      StaysInStep(Next(s, steps[0]), steps[1..], Temps(s, steps[0], temps));
    }
  }

  lemma {:induction false} StepKeeps(s: State, step: Step, temps: set<nat>)
    requires InStep(s, temps) && Boxed(s) && Disciplined(step, temps)
    ensures InStep(Next(s, step), Temps(s, step, temps)) && Boxed(Next(s, step))
  {
    match step
    case Opened => OpenKeeps(s);
    case Close(fd) =>
      if 0 <= fd < |s.table| && s.table[fd] != 0 { CloseExact(s, fd, temps); }
    case RawOpen => RawKeeps(s, step, temps);
    case RawClose(_) => RawKeeps(s, step, temps);
    case SetLimit(_) =>
      var s' := Next(s, step);
      assert forall i: nat :: Open(s', i) == Open(s, i) && Occupied(s', i) == Occupied(s, i);
  }

  lemma {:induction false} InstalledIsRaw(s: State, steps: seq<Step>)
    requires InStep(s, {}) && Boxed(s) && Runs(s, steps, {}) && Held(s, steps, {}) == {}
    requires var e := After(s, steps); Raw(e) < |e.kernel| && Slot(e) < |Usable(e)|
    ensures Slot(After(s, steps)) == Raw(After(s, steps))
  {
    StaysInStep(s, steps, {});
    SameNumber(After(s, steps));
  }

  // ---- bare numbers, a missing start, a stray close

  /** An event's slot is the kernel's number, but the two stay in step exactly when that is not 0. */
  lemma {:induction false} EventExact(s: State)
    requires InStep(s, {}) && Raw(s) < |s.kernel| && Slot(s) < |Usable(s)|
    ensures Slot(s) == Raw(s) && Next(s, Event).table[Slot(s)] == Raw(s)
    ensures InStep(Next(s, Event), {}) <==> Raw(s) != 0
  {
    SameNumber(s);
    var r, s' := Raw(s), Next(s, Event);
    hide FirstFree, FirstClosed;
    assert forall i: nat :: Open(s', i) == (i == r || Open(s, i));
    assert forall i: nat :: Occupied(s', i) == ((i == r && r != 0) || (i != r && Occupied(s, i)));
    if r == 0 { assert Open(s', 0) && !Occupied(s', 0); }
  }

  /** Closing an event through the table always puts the two out of step: the kernel closes the number
      below the event's. */
  lemma {:induction false} EventCloseBreaks(s: State)
    requires InStep(s, {}) && 0 < Raw(s) < |s.kernel| && Slot(s) < |Usable(s)|
    ensures var s' := Next(s, Event);
            var s'' := Next(s', Close(Slot(s)));
            !InStep(s'', {}) && s''.kernel == s'.kernel[Raw(s) - 1 := false]
  {
    EventExact(s);
    CloseExact(Next(s, Event), Slot(s), {});
  }

  /** The state __fd_init leaves: a slot for each descriptor the kernel has open. */
  ghost function Initial(kernel: seq<bool>): State {
    State(seq(FD_MAX, i => if 0 <= i < |kernel| && kernel[i] then i + 1 else 0), kernel, FD_MAX)
  }

  lemma {:induction false} InitialInStep(kernel: seq<bool>)
    ensures Boxed(Initial(kernel))
    ensures InStep(Initial(kernel), {}) <==> forall i :: FD_MAX <= i < |kernel| ==> !kernel[i]
  {
    var s := Initial(kernel);
    assert forall i: nat :: i < FD_MAX ==> Open(s, i) == Occupied(s, i);
    assert forall i: nat :: FD_MAX <= i ==> !Occupied(s, i) && (Open(s, i) <==> i < |kernel| && kernel[i]);
  }

  /** Descriptors 0, 1 and 2 open and room for more. */
  ghost function Standard(): seq<bool> { seq(FD_MAX, i => i < 3) }

  ghost function Bare(): State { State(seq(FD_MAX, _ => 0), Standard(), FD_MAX) }

  /** Without __fd_init the first installed descriptor is 3 to the kernel and 0 to the table. */
  lemma {:induction false} NoInitDiffers()
    ensures Raw(Bare()) == 3 && Slot(Bare()) == 0
  {
    FirstClosedIs(Standard(), 3);
  }

  lemma {:induction false} FirstClosedIs(k: seq<bool>, i: nat)
    requires i < |k| && !k[i] && forall j :: 0 <= j < i ==> k[j]
    ensures FirstClosed(k, 0) == i
  {
    var f := FirstClosed(k, 0);
    if i < f { FirstClosedSkips(k, 0, i); }
  }

  /** One raw close of an installed descriptor always puts the two out of step, and the next numbers differ exactly
      when it was below the kernel's next one. */
  lemma {:induction false} RawCloseDiffers(s: State, fd: nat)
    requires InStep(s, {}) && Occupied(s, fd) && Raw(s) < |s.kernel| && Slot(s) < |Usable(s)|
    ensures var s' := Next(s, RawClose(fd));
            !InStep(s', {}) && Raw(s') == (if fd < Raw(s) then fd else Raw(s)) && (Raw(s') != Slot(s') <==> fd < Raw(s))
  {
    var s' := Next(s, RawClose(fd));
    SameNumber(s);
    assert Open(s, fd) && !Open(s', fd) && Occupied(s', fd);
    var r := if fd < Raw(s) then fd else Raw(s);
    forall j | 0 <= j < r ensures s'.kernel[j] { FirstClosedSkips(s.kernel, 0, j); }
    FirstClosedIs(s'.kernel, r);
  }

  /** A started process, one event made and closed through the table, then another made: the kernel
      hands out 2, the table 3. */
  lemma {:induction false} SecondEventDiffers()
    ensures var s := After(Initial(Standard()), [Event, Close(3)]); Raw(s) == 2 && Slot(s) == 3
  {
    var s0 := Initial(Standard());
    InitialInStep(Standard());
    FirstClosedIs(Standard(), 3);
    FirstFreeIs(s0.table, 0, 3);
    var s1 := Next(s0, Event);
    assert s1.table == s0.table[3 := 3] && s1.kernel == s0.kernel[3 := true];
    var s2 := Next(s1, Close(3));
    assert s2.table == s1.table[3 := 0] && s2.kernel == s1.kernel[2 := false];
    FirstClosedIs(s2.kernel, 2);
    FirstFreeIs(s2.table, 0, 3);
    assert [Event, Close(3)][1..] == [Close(3)];
    assert After(s1, [Close(3)]) == s2;
  }
}
