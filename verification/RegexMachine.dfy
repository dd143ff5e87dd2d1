// src/regex/regex.c: the whole match attempt, with its backtracking stack and the guard on back edges.

module RegexMachine {
  import opened RegexCompiler
  import opened RegexProgram
  import opened RegexSafety
  import opened RegexThreads

  /** An alternative put off by a split. */
  datatype Choice = Choice(pc: nat, sp: nat)

  /** The running thread and the alternatives still to try.  Offsets recorded at back edges are not taken
      back when the thread backtracks. */
  datatype Vm = Vm(t: Thread, stack: seq<Choice>)

  /** The thread goes on.  At a split it keeps the second way for later; a back edge it may not take again
      it leaves by the second way. */
  predicate Advances(prog: seq<Inst>, len: nat, a: Vm, b: Vm) {
    a.t.pc < |prog| == |a.t.progress| &&
    match prog[a.t.pc]
    case Split(x, y) =>
      if Cut(prog, a.t) then b == Vm(Thread(y, a.t.sp, a.t.progress), a.stack)
      else b == Vm(Thread(x, a.t.sp, Noted(prog, a.t)), a.stack + [Choice(y, a.t.sp)])
    case Jmp(_) => !Cut(prog, a.t) && Steps(prog, len, a.t, b.t) && b.stack == a.stack
    case _ => Steps(prog, len, a.t, b.t) && b.stack == a.stack
  }

  /** The thread may fail here: at the end, at a match already noted, at a jump the guard refuses, or where a
      character, an anchor or a back-reference does not match. */
  predicate MayFail(prog: seq<Inst>, t: Thread) {
    t.pc >= |prog| ||
    match prog[t.pc]
    case Save(_) => false
    case Split(_, _) => false
    case Jmp(_) => Cut(prog, t)
    case _ => true
  }

  predicate Backtracks(prog: seq<Inst>, a: Vm, b: Vm) {
    MayFail(prog, a.t) && a.stack != [] &&
    var top := a.stack[|a.stack| - 1];
    b == Vm(Thread(top.pc, top.sp, a.t.progress), a.stack[..|a.stack| - 1])
  }

  predicate Run(prog: seq<Inst>, len: nat, run: seq<Vm>) {
    forall i :: 0 <= i < |run| - 1 ==> Advances(prog, len, run[i], run[i + 1]) || Backtracks(prog, run[i], run[i + 1])
  }

  // ---- a measure that every step lowers

  function Pow3(n: nat): (r: nat)
    ensures r >= 1
  {
    if n == 0 then 1 else 3 * Pow3(n - 1)
  }

  lemma {:induction false} Pow3Grows(m: nat, n: nat)
    requires m <= n
    ensures Pow3(m) <= Pow3(n) && (m < n ==> 3 * Pow3(m) <= Pow3(n))
    decreases n
  {
    if m < n { Pow3Grows(m, n - 1); }
  }

  /** The work a position stands for: a third of it a step further on. */
  function Work(prog: seq<Inst>, pc: nat): nat { Pow3(if pc < |prog| then |prog| - pc else 0) }

  function Pending(prog: seq<Inst>, stack: seq<Choice>): nat {
    if stack == [] then 0 else Pending(prog, stack[..|stack| - 1]) + Work(prog, stack[|stack| - 1].pc)
  }

  /** How far the recorded offsets can still rise. */
  function Room(progress: seq<int>, len: nat): int {
    if progress == [] then 0 else Room(progress[..|progress| - 1], len) + (len - progress[|progress| - 1])
  }

  lemma {:induction false} RoomUpdate(progress: seq<int>, len: nat, k: nat, v: int)
    requires k < |progress|
    ensures Room(progress[k := v], len) == Room(progress, len) + progress[k] - v
  {
    var last := |progress| - 1;
    if k == last {
      assert progress[k := v][..last] == progress[..last];
    } else {
      RoomUpdate(progress[..last], len, k, v);
      assert progress[k := v][..last] == progress[..last][k := v];
    }
  }

  lemma {:induction false} RoomBounds(progress: seq<int>, len: nat)
    requires forall k :: 0 <= k < |progress| ==> -1 <= progress[k] <= len
    ensures 0 <= Room(progress, len) <= |progress| * (len + 1)
  {
    if progress != [] {
      RoomBounds(progress[..|progress| - 1], len);
      assert |progress| * (len + 1) == (|progress| - 1) * (len + 1) + (len + 1);
    }
  }

  /** What every run keeps. */
  ghost predicate Good(prog: seq<Inst>, len: nat, a: Vm) {
    && a.t.sp <= len && |a.t.progress| == |prog|
    && (forall k :: 0 <= k < |prog| ==> -1 <= a.t.progress[k] <= len)
    && (forall k :: 0 <= k < |a.stack| ==> a.stack[k].sp <= len)
  }

  function Measure(prog: seq<Inst>, len: nat, a: Vm): int {
    Room(a.t.progress, len) * Pow3(|prog|) + Work(prog, a.t.pc) + Pending(prog, a.stack)
  }

  lemma {:induction false} WorkFalls(prog: seq<Inst>, pc: nat, next: nat)
    requires pc < next <= |prog|
    ensures 3 * Work(prog, next) <= Work(prog, pc)
  {
    Pow3Grows(|prog| - next, |prog| - pc);
  }

  lemma {:induction false} WorkBounded(prog: seq<Inst>, pc: nat)
    ensures 1 <= Work(prog, pc) <= Pow3(|prog|)
  {
    Pow3Grows(if pc < |prog| then |prog| - pc else 0, |prog|);
  }

  lemma {:induction false} Pushed(prog: seq<Inst>, stack: seq<Choice>, c: Choice)
    ensures Pending(prog, stack + [c]) == Pending(prog, stack) + Work(prog, c.pc)
  {
    assert (stack + [c])[..|stack|] == stack;
  }

  /** A back edge taken leaves less room, and that outweighs all the work behind it. */
  lemma {:induction false} EdgePays(prog: seq<Inst>, len: nat, t: Thread)
    requires t.pc < |prog| == |t.progress| && BackAt(prog, t.pc) && !Cut(prog, t)
    ensures Room(Noted(prog, t), len) * Pow3(|prog|) + Pow3(|prog|) <= Room(t.progress, len) * Pow3(|prog|)
  {
    RoomUpdate(t.progress, len, t.pc, t.sp);
    Scale(Room(Noted(prog, t), len), Room(t.progress, len), Pow3(|prog|));
  }

  lemma {:induction false} Scale(m: int, n: int, w: nat)
    requires m < n
    ensures m * w + w <= n * w
  {
    assert (n - m) * w == n * w - m * w;
    assert (n - m) * w == (n - m - 1) * w + w;
    assert (n - m - 1) * w >= 0;
  }

  lemma {:induction false} ForwardFalls(prog: seq<Inst>, len: nat, a: Vm, b: Vm)
    requires FineFrom(prog, 0, false) && Good(prog, len, a) && Advances(prog, len, a, b) && !prog[a.t.pc].Split?
    ensures Good(prog, len, b) && Measure(prog, len, b) < Measure(prog, len, a)
  {
    assert Fine(prog, a.t.pc, 0, false);
    hide FineFrom, Room, Pending, Pow3, Work;
    if BackAt(prog, a.t.pc) {
      EdgePays(prog, len, a.t);
      WorkBounded(prog, a.t.pc);
      WorkBounded(prog, b.t.pc);
    } else {
      WorkFalls(prog, a.t.pc, b.t.pc);
      WorkBounded(prog, b.t.pc);
    }
  }

  lemma {:induction false} SplitFalls(prog: seq<Inst>, len: nat, a: Vm, b: Vm)
    requires FineFrom(prog, 0, false) && Good(prog, len, a) && Advances(prog, len, a, b) && prog[a.t.pc].Split?
    ensures Good(prog, len, b) && Measure(prog, len, b) < Measure(prog, len, a)
  {
    assert Fine(prog, a.t.pc, 0, false);
    var pc, x, y := a.t.pc, prog[a.t.pc].x, prog[a.t.pc].y;
    hide FineFrom, Room, Pending, Pow3, Work;
    WorkFalls(prog, pc, y);
    WorkBounded(prog, y);
    if !Cut(prog, a.t) {
      Pushed(prog, a.stack, Choice(y, a.t.sp));
      WorkBounded(prog, x);
      if BackAt(prog, pc) { EdgePays(prog, len, a.t); } else { WorkFalls(prog, pc, x); }
    }
  }

  lemma {:induction false} BacktrackFalls(prog: seq<Inst>, len: nat, a: Vm, b: Vm)
    requires Good(prog, len, a) && Backtracks(prog, a, b)
    ensures Good(prog, len, b) && Measure(prog, len, b) < Measure(prog, len, a)
  {
    hide Room, Pow3, Work;
    WorkBounded(prog, a.t.pc);
  }

  lemma {:induction false} RunBounded(prog: seq<Inst>, len: nat, run: seq<Vm>)
    requires FineFrom(prog, 0, false) && run != [] && Good(prog, len, run[0]) && Run(prog, len, run)
    ensures |run| <= Measure(prog, len, run[0]) + 1
    decreases |run|
  {
    hide FineFrom, Measure, Good, Advances, Backtracks;
    if |run| == 1 {
      MeasureNat(prog, len, run[0]);
    } else {
      var rest := run[1..];
      assert Advances(prog, len, run[0], run[1]) || Backtracks(prog, run[0], run[1]);
      OneFalls(prog, len, run[0], run[1]);
      forall i | 0 <= i < |rest| - 1
        ensures Advances(prog, len, rest[i], rest[i + 1]) || Backtracks(prog, rest[i], rest[i + 1]) {
        assert Advances(prog, len, run[i + 1], run[(i + 1) + 1]) || Backtracks(prog, run[i + 1], run[(i + 1) + 1]);
      }
      RunBounded(prog, len, rest);
    }
  }

  lemma {:induction false} OneFalls(prog: seq<Inst>, len: nat, a: Vm, b: Vm)
    requires FineFrom(prog, 0, false) && Good(prog, len, a) && (Advances(prog, len, a, b) || Backtracks(prog, a, b))
    ensures Good(prog, len, b) && Measure(prog, len, b) < Measure(prog, len, a)
  {
    hide FineFrom, Measure;
    if Backtracks(prog, a, b) {
      BacktrackFalls(prog, len, a, b);
    } else if prog[a.t.pc].Split? {
      SplitFalls(prog, len, a, b);
    } else {
      ForwardFalls(prog, len, a, b);
    }
  }

  lemma {:induction false} MeasureNat(prog: seq<Inst>, len: nat, a: Vm)
    requires Good(prog, len, a)
    ensures 0 <= Measure(prog, len, a) <= (|prog| * (len + 1) + 1) * Pow3(|prog|) + Pending(prog, a.stack)
  {
    RoomBounds(a.t.progress, len);
    WorkBounded(prog, a.t.pc);
    var room, w := Room(a.t.progress, len), Pow3(|prog|);
    hide Room, Pow3, Work, Pending;
    Under(room, |prog| * (len + 1), w);
  }

  lemma {:induction false} Under(m: nat, n: nat, w: nat)
    requires m <= n
    ensures 0 <= m * w && m * w + w <= (n + 1) * w
  {
    Scale(m, n + 1, w);
  }

  /** Every match attempt ends, on every pattern that compiles and every subject, its step budget aside: the guard
      lets each back edge be taken only once per offset. */
  lemma {:induction false} MatcherHalts(p: string, ere: bool, len: nat, start: nat, run: seq<Vm>)
    requires RegComp(p, ere).Ok? && start <= len
    requires run != [] && run[0] == Vm(Fresh(RegComp(p, ere).value.prog, start), []) &&
             Run(RegComp(p, ere).value.prog, len, run)
    ensures var n := |RegComp(p, ere).value.prog|; |run| <= (n * (len + 1) + 1) * Pow3(n) + 1
  {
    var prog := RegComp(p, ere).value.prog;
    CompiledFine(p, ere);
    hide RegComp, Run, Measure;
    Loosen(prog, RegComp(p, ere).value.plain);
    RunBounded(prog, len, run);
    MeasureNat(prog, len, run[0]);
  }

  lemma {:induction false} Loosen(prog: seq<Inst>, strict: bool)
    requires FineFrom(prog, 0, strict)
    ensures FineFrom(prog, 0, false)
  {
    forall pc | 0 <= pc < |prog| ensures Fine(prog, pc, 0, false) { assert Fine(prog, pc, 0, strict); }
  }

  // ---- one alternative

  /** A step the guard allows, taking either way at a split. */
  predicate Allowed(prog: seq<Inst>, len: nat, a: Thread, b: Thread) {
    Steps(prog, len, a, b) && (Cut(prog, a) ==> prog[a.pc].Split? && b == Thread(prog[a.pc].y, a.sp, a.progress))
  }

  predicate Alternative(prog: seq<Inst>, len: nat, path: seq<Thread>) {
    forall i :: 0 <= i < |path| - 1 ==> Allowed(prog, len, path[i], path[i + 1])
  }

  function Headroom(prog: seq<Inst>, len: nat, t: Thread): int {
    Room(t.progress, len) * (|prog| + 1) + if t.pc < |prog| then |prog| - t.pc else 0
  }

  lemma {:induction false} AlternativeFalls(prog: seq<Inst>, len: nat, a: Thread, b: Thread)
    requires FineFrom(prog, 0, false) && Good(prog, len, Vm(a, [])) && Allowed(prog, len, a, b)
    ensures Good(prog, len, Vm(b, [])) && Headroom(prog, len, b) < Headroom(prog, len, a)
  {
    assert Fine(prog, a.pc, 0, false);
    hide FineFrom, Room;
    if b.progress != a.progress {
      RoomUpdate(a.progress, len, a.pc, a.sp);
      Scale(Room(b.progress, len), Room(a.progress, len), |prog| + 1);
    }
  }

  lemma {:induction false} AlternativeBounded(prog: seq<Inst>, len: nat, path: seq<Thread>)
    requires FineFrom(prog, 0, false) && path != [] && Good(prog, len, Vm(path[0], [])) && Alternative(prog, len, path)
    ensures |path| <= Headroom(prog, len, path[0]) + 1
    decreases |path|
  {
    hide FineFrom, Allowed;
    if |path| == 1 {
      RoomBounds(path[0].progress, len);
      assert Room(path[0].progress, len) * (|prog| + 1) >= 0;
    } else {
      var rest := path[1..];
      assert Allowed(prog, len, path[0], path[1]);
      AlternativeFalls(prog, len, path[0], path[1]);
      forall i | 0 <= i < |rest| - 1 ensures Allowed(prog, len, rest[i], rest[i + 1]) {
        assert Allowed(prog, len, path[i + 1], path[(i + 1) + 1]);
      }
      hide Good, Headroom;
      AlternativeBounded(prog, len, rest);
    }
  }

  /** With the guard no alternative of any compiled pattern, plain or not, runs longer than this. */
  lemma {:induction false} AlternativeEnds(p: string, ere: bool, len: nat, start: nat, path: seq<Thread>)
    requires RegComp(p, ere).Ok? && start <= len
    requires path != [] && path[0] == Fresh(RegComp(p, ere).value.prog, start)
    requires Alternative(RegComp(p, ere).value.prog, len, path)
    ensures var n := |RegComp(p, ere).value.prog|; |path| <= (n * (len + 1) + 1) * (n + 1)
  {
    var prog := RegComp(p, ere).value.prog;
    var n := |prog|;
    CompiledFine(p, ere);
    hide RegComp, Alternative;
    Loosen(prog, RegComp(p, ere).value.plain);
    AlternativeBounded(prog, len, path);
    RoomBounds(path[0].progress, len);
    var room := Room(path[0].progress, len);
    hide Room;
    Under(room, n * (len + 1), n + 1);
  }
}
