// src/regex/regex.c: what a match attempt tries, and what regexec finds.

/** The matcher at work on a subject. */
module RegexMatcher {
  import opened Options
  import opened RegexCompiler
  import opened RegexProgram
  import opened RegexThreads
  import opened RegexMachine

  /** A subject: its length; whether a character, a set or an anchor matches at an offset; and whether `n` characters
      from one offset on are those from another on.  Case folding, newlines and the flags are in the answers. */
  datatype Subject = Subject(len: nat, ok: (Inst, nat) -> bool, same: (nat, nat, nat) -> bool)

  /** Where a thread is: its instruction, its offset and what it has captured, -1 for nothing. */
  datatype Place = Place(pc: nat, sp: nat, slots: seq<int>)

  /** The attempt: the running thread, the offsets recorded at back edges, and the alternatives put off. */
  datatype State = State(at: Place, progress: seq<int>, stack: seq<Place>)

  /** What a group captured, as an offset and a length, if it did. */
  function Capture(slots: seq<int>, g: nat): Option<(nat, nat)> {
    if 2 * g + 1 < |slots| && 0 <= slots[2 * g] <= slots[2 * g + 1]
    then Some((slots[2 * g], slots[2 * g + 1] - slots[2 * g])) else None
  }

  function Saved(slots: seq<int>, k: nat, sp: nat): (r: seq<int>)
    ensures |r| == |slots|
  {
    if k < |slots| then slots[k := sp] else slots
  }

  /** What one instruction that tests or notes something makes of an offset and the captures; none if it fails. */
  function Does(s: Subject, inst: Inst, sp: nat, slots: seq<int>): Option<(nat, seq<int>)> {
    if Consumes(inst) then if sp < s.len && s.ok(inst, sp) then Some((sp + 1, slots)) else None
    else match inst
      case Bol => if s.ok(inst, sp) then Some((sp, slots)) else None
      case Eol => if s.ok(inst, sp) then Some((sp, slots)) else None
      case Save(k) => Some((sp, Saved(slots, k, sp)))
      case Backref(g) =>
        var c := Capture(slots, g);
        if c.Some? && sp + c.value.1 <= s.len && s.same(c.value.0, c.value.1, sp)
        then Some((sp + c.value.1, slots)) else None
      case _ => None
  }

  /** Where the thread at c can go, in the order it is tried. */
  function Ways(prog: seq<Inst>, s: Subject, c: Place): seq<Place> {
    if c.pc >= |prog| then []
    else match prog[c.pc]
      case Jmp(x) => [c.(pc := x)]
      case Split(x, y) => [c.(pc := x), c.(pc := y)]
      case inst =>
        var r := Does(s, inst, c.sp, c.slots);
        if r.Some? then [Place(c.pc + 1, r.value.0, r.value.1)] else []
  }

  predicate AtMatch(prog: seq<Inst>, c: Place) { c.pc < |prog| && prog[c.pc].Match? }

  /** An attempt at `start` begins, with `n` slots. */
  function Start(start: nat, n: nat): Place { Place(0, start, seq(n, _ => -1)) }

  function First(prog: seq<Inst>, start: nat, n: nat): State { State(Start(start, n), seq(|prog|, _ => -1), []) }

  /** The last alternative put off, if there is one. */
  function Pop(a: State): Option<State> {
    if a.stack == [] then None else Some(State(a.stack[|a.stack| - 1], a.progress, a.stack[..|a.stack| - 1]))
  }

  /** The guard: the back edge was taken at this offset already, or further on, by any alternative. */
  predicate Guarded(prog: seq<Inst>, a: State) { Cut(prog, Thread(a.at.pc, a.at.sp, a.progress)) }

  function Recorded(prog: seq<Inst>, a: State): seq<int>
    requires a.at.pc < |a.progress|
  {
    Noted(prog, Thread(a.at.pc, a.at.sp, a.progress))
  }

  /** One turn of the matcher's loop; none when nothing is left to try. */
  function Next(prog: seq<Inst>, s: Subject, a: State): Option<State>
    requires |a.progress| == |prog|
  {
    var ways := Ways(prog, s, a.at);
    if ways == [] then Pop(a)
    else if |ways| == 1 then
      if Guarded(prog, a) then Pop(a) else Some(State(ways[0], Recorded(prog, a), a.stack))
    else if Guarded(prog, a) then Some(State(ways[1], a.progress, a.stack))
    else Some(State(ways[0], Recorded(prog, a), a.stack + [ways[1]]))
  }

  // ---- it ends

  function Choices(stack: seq<Place>): (r: seq<Choice>)
    ensures |r| == |stack|
  {
    seq(|stack|, i requires 0 <= i < |stack| => Choice(stack[i].pc, stack[i].sp))
  }

  /** The attempt without its captures. */
  function Plainly(a: State): Vm { Vm(Thread(a.at.pc, a.at.sp, a.progress), Choices(a.stack)) }

  function Left(prog: seq<Inst>, s: Subject, a: State): int { Measure(prog, s.len, Plainly(a)) }

  ghost predicate Ready(prog: seq<Inst>, s: Subject, a: State) {
    FineFrom(prog, 0, false) && Good(prog, s.len, Plainly(a))
  }

  lemma {:induction false} NextIsStep(prog: seq<Inst>, s: Subject, a: State)
    requires |a.progress| == |prog| && Next(prog, s, a).Some?
    ensures var b := Next(prog, s, a).value;
            Advances(prog, s.len, Plainly(a), Plainly(b)) || Backtracks(prog, Plainly(a), Plainly(b))
  {
    var b := Next(prog, s, a).value;
    var ways := Ways(prog, s, a.at);
    assert a.stack != [] ==> Choices(a.stack)[..|a.stack| - 1] == Choices(a.stack[..|a.stack| - 1]);
    if |ways| == 2 && !Guarded(prog, a) {
      assert Choices(a.stack + [ways[1]]) == Choices(a.stack) + [Choice(ways[1].pc, ways[1].sp)];
    }
  }

  lemma {:induction false} NextFalls(prog: seq<Inst>, s: Subject, a: State)
    requires Ready(prog, s, a) && Next(prog, s, a).Some?
    ensures var b := Next(prog, s, a).value; Ready(prog, s, b) && 0 <= Left(prog, s, b) < Left(prog, s, a)
  {
    var b := Next(prog, s, a).value;
    NextIsStep(prog, s, a);
    hide Next, Advances, Backtracks, FineFrom, Measure, Good, Plainly;
    OneFalls(prog, s.len, Plainly(a), Plainly(b));
    MeasureNat(prog, s.len, Plainly(b));
  }

  // ---- what is tried

  ghost function Tried(prog: seq<Inst>, s: Subject, a: State): set<Place>
    requires Ready(prog, s, a)
    decreases Left(prog, s, a)
  {
    if Next(prog, s, a).None? then {a.at}
    else
      NextFalls(prog, s, a);
      {a.at} + Tried(prog, s, Next(prog, s, a).value)
  }

  /** Where the guard refuses a back edge. */
  ghost function Refused(prog: seq<Inst>, s: Subject, a: State): set<Place>
    requires Ready(prog, s, a)
    decreases Left(prog, s, a)
  {
    var now := if Guarded(prog, a) then {a.at} else {};
    if Next(prog, s, a).None? then now
    else
      NextFalls(prog, s, a);
      now + Refused(prog, s, Next(prog, s, a).value)
  }

  /** The way a refused back edge would have gone. */
  function Back(prog: seq<Inst>, c: Place): Place {
    if c.pc < |prog| then match prog[c.pc] case Jmp(x) => c.(pc := x) case Split(x, _) => c.(pc := x) case _ => c
    else c
  }

  lemma {:induction false} TriedNext(prog: seq<Inst>, s: Subject, a: State)
    requires Ready(prog, s, a)
    ensures a.at in Tried(prog, s, a) && Refused(prog, s, a) <= Tried(prog, s, a)
    ensures Next(prog, s, a).None? ==> Tried(prog, s, a) == {a.at}
    ensures Next(prog, s, a).Some? ==>
            var b := Next(prog, s, a).value;
            && Ready(prog, s, b) && 0 <= Left(prog, s, b) < Left(prog, s, a)
            && Tried(prog, s, a) == {a.at} + Tried(prog, s, b)
            && Refused(prog, s, a) == (if Guarded(prog, a) then {a.at} else {}) + Refused(prog, s, b)
    decreases Left(prog, s, a)
  {
    assert |a.progress| == |prog|;
    hide Ready, Next, Left, Guarded, FineFrom;
    if Next(prog, s, a).Some? {
      NextFalls(prog, s, a);
      TriedNext(prog, s, Next(prog, s, a).value);
    }
  }

  /** Every alternative put off is tried. */
  lemma {:induction false} PendingTried(prog: seq<Inst>, s: Subject, a: State, k: nat)
    requires Ready(prog, s, a) && k < |a.stack|
    ensures a.stack[k] in Tried(prog, s, a)
    decreases Left(prog, s, a)
  {
    StackKept(prog, s, a, k);
    TriedNext(prog, s, a);
    hide Ready, Next, Left, Tried, Refused;
    var b := Next(prog, s, a).value;
    if k < |b.stack| && b.stack[k] == a.stack[k] {
      PendingTried(prog, s, b, k);
    } else {
      TriedNext(prog, s, b);
    }
  }

  lemma {:induction false} StackKept(prog: seq<Inst>, s: Subject, a: State, k: nat)
    requires Ready(prog, s, a) && k < |a.stack|
    ensures Next(prog, s, a).Some? &&
            var b := Next(prog, s, a).value;
            (k < |b.stack| && b.stack[k] == a.stack[k]) || b.at == a.stack[k]
  {
    hide FineFrom;
  }

  /** Wherever a place that is tried leads is tried as well, unless the guard refuses that way. */
  lemma {:induction false} WaysTried(prog: seq<Inst>, s: Subject, a: State, c: Place, d: Place)
    requires Ready(prog, s, a) && c in Tried(prog, s, a) && d in Ways(prog, s, c)
    ensures d in Tried(prog, s, a) || (c in Refused(prog, s, a) && d == Back(prog, c))
    decreases Left(prog, s, a)
  {
    TriedNext(prog, s, a);
    if c == a.at { WayTaken(prog, s, a, d); }
    hide Ready, Next, Left, Tried, Refused, Ways, Guarded;
    if c == a.at {
      if !(Guarded(prog, a) && d == Back(prog, c)) {
        var b := Next(prog, s, a).value;
        TriedNext(prog, s, b);
        if d != b.at { PendingTried(prog, s, b, |b.stack| - 1); }
      }
    } else {
      WaysTried(prog, s, Next(prog, s, a).value, c, d);
    }
  }

  lemma {:induction false} WayTaken(prog: seq<Inst>, s: Subject, a: State, d: Place)
    requires Ready(prog, s, a) && d in Ways(prog, s, a.at)
    ensures (Guarded(prog, a) && d == Back(prog, a.at)) ||
            (Next(prog, s, a).Some? &&
             var b := Next(prog, s, a).value;
             d == b.at || (b.stack != [] && d == b.stack[|b.stack| - 1]))
  {
    hide FineFrom;
  }

  // ---- what can be reached

  predicate Route(prog: seq<Inst>, s: Subject, path: seq<Place>) {
    forall i :: 0 <= i < |path| - 1 ==> path[i + 1] in Ways(prog, s, path[i])
  }

  predicate Along(prog: seq<Inst>, s: Subject, from: Place, c: Place, path: seq<Place>) {
    path != [] && path[0] == from && path[|path| - 1] == c && Route(prog, s, path)
  }

  ghost predicate Reach(prog: seq<Inst>, s: Subject, from: Place, c: Place) {
    exists path :: Along(prog, s, from, c, path)
  }

  lemma {:induction false} ReachFurther(prog: seq<Inst>, s: Subject, from: Place, c: Place, d: Place)
    requires Reach(prog, s, from, c) && d in Ways(prog, s, c)
    ensures Reach(prog, s, from, d)
  {
    hide Ways;
    var path :| Along(prog, s, from, c, path);
    var more := path + [d];
    forall i | 0 <= i < |more| - 1 ensures more[i + 1] in Ways(prog, s, more[i]) {
      if i < |path| - 1 { assert path[i + 1] in Ways(prog, s, path[i]); }
    }
    assert Along(prog, s, from, d, more);
  }

  ghost predicate AllReach(prog: seq<Inst>, s: Subject, from: Place, a: State) {
    Reach(prog, s, from, a.at) && forall k :: 0 <= k < |a.stack| ==> Reach(prog, s, from, a.stack[k])
  }

  lemma {:induction false} NextReach(prog: seq<Inst>, s: Subject, from: Place, a: State)
    requires |a.progress| == |prog| && AllReach(prog, s, from, a) && Next(prog, s, a).Some?
    ensures AllReach(prog, s, from, Next(prog, s, a).value)
  {
    var ways := Ways(prog, s, a.at);
    hide Reach, Ways;
    if ways != [] { ReachFurther(prog, s, from, a.at, ways[0]); }
    if |ways| > 1 { ReachFurther(prog, s, from, a.at, ways[1]); }
  }

  /** Nothing is tried that cannot be reached. */
  lemma {:induction false} TriedReach(prog: seq<Inst>, s: Subject, from: Place, a: State, c: Place)
    requires Ready(prog, s, a) && AllReach(prog, s, from, a) && c in Tried(prog, s, a)
    ensures Reach(prog, s, from, c)
    decreases Left(prog, s, a)
  {
    TriedNext(prog, s, a);
    if c != a.at {
      var b := Next(prog, s, a).value;
      NextReach(prog, s, from, a);
      hide Ready, Next, Left, Tried, Refused, AllReach;
      TriedReach(prog, s, from, b, c);
    }
  }

  lemma {:induction false} ReachSelf(prog: seq<Inst>, s: Subject, c: Place)
    ensures Reach(prog, s, c, c)
  {
    assert Along(prog, s, c, c, [c]);
  }

  lemma {:induction false} ClosedHolds(prog: seq<Inst>, s: Subject, all: set<Place>, path: seq<Place>, k: nat)
    requires Route(prog, s, path) && k < |path| && path[0] in all
    requires forall c, d :: c in all && d in Ways(prog, s, c) ==> d in all
    ensures path[k] in all
  {
    hide Ways;
    if k > 0 {
      ClosedHolds(prog, s, all, path, k - 1);
      assert path[(k - 1) + 1] in Ways(prog, s, path[k - 1]);
    }
  }

  lemma {:induction false} FirstReady(prog: seq<Inst>, s: Subject, start: nat, n: nat)
    requires FineFrom(prog, 0, false) && start <= s.len
    ensures Ready(prog, s, First(prog, start, n))
  {
  }

  /** What an attempt at `start` tries. */
  ghost function TriedFrom(prog: seq<Inst>, s: Subject, start: nat, n: nat): set<Place>
    requires FineFrom(prog, 0, false) && start <= s.len
  {
    FirstReady(prog, s, start, n);
    Tried(prog, s, First(prog, start, n))
  }

  ghost function RefusedFrom(prog: seq<Inst>, s: Subject, start: nat, n: nat): set<Place>
    requires FineFrom(prog, 0, false) && start <= s.len
  {
    FirstReady(prog, s, start, n);
    Refused(prog, s, First(prog, start, n))
  }

  /** Everything that can be reached is tried. */
  ghost predicate TriesAll(prog: seq<Inst>, s: Subject, start: nat, n: nat)
    requires FineFrom(prog, 0, false) && start <= s.len
  {
    forall c :: Reach(prog, s, Start(start, n), c) ==> c in TriedFrom(prog, s, start, n)
  }

  /** Where a refused back edge leads is tried all the same, on another way. */
  ghost predicate Harmless(prog: seq<Inst>, s: Subject, start: nat, n: nat)
    requires FineFrom(prog, 0, false) && start <= s.len
  {
    forall c :: c in RefusedFrom(prog, s, start, n) ==> Back(prog, c) in TriedFrom(prog, s, start, n)
  }

  /** An attempt tries everything exactly when no refused back edge leads to a place that is not tried. */
  lemma {:induction false} TriesAllExactly(prog: seq<Inst>, s: Subject, start: nat, n: nat)
    requires FineFrom(prog, 0, false) && start <= s.len
    ensures TriesAll(prog, s, start, n) <==> Harmless(prog, s, start, n)
  {
    FirstReady(prog, s, start, n);
    var a, from := First(prog, start, n), Start(start, n);
    TriedNext(prog, s, a);
    hide Ready, Next, Left, Tried, Refused, Ways, Reach, FineFrom;
    if TriesAll(prog, s, start, n) {
      forall c | c in Refused(prog, s, a) ensures Back(prog, c) in Tried(prog, s, a) {
        FromReach(prog, s, start, n, c);
        RefusedWay(prog, s, a, c);
        ReachFurther(prog, s, from, c, Back(prog, c));
      }
    }
    if Harmless(prog, s, start, n) {
      var all := Tried(prog, s, a);
      forall c, d | c in all && d in Ways(prog, s, c) ensures d in all { WaysTried(prog, s, a, c, d); }
      forall c | Reach(prog, s, from, c) ensures c in all { ReachTried(prog, s, from, c, all); }
    }
  }

  /** And nothing is tried that cannot be reached. */
  lemma {:induction false} FromReach(prog: seq<Inst>, s: Subject, start: nat, n: nat, c: Place)
    requires FineFrom(prog, 0, false) && start <= s.len && c in TriedFrom(prog, s, start, n)
    ensures Reach(prog, s, Start(start, n), c)
  {
    FirstReady(prog, s, start, n);
    ReachSelf(prog, s, Start(start, n));
    hide Ready, Tried, Reach;
    TriedReach(prog, s, Start(start, n), First(prog, start, n), c);
  }

  lemma {:induction false} ReachTried(prog: seq<Inst>, s: Subject, from: Place, c: Place, all: set<Place>)
    requires Reach(prog, s, from, c) && from in all
    requires forall c, d :: c in all && d in Ways(prog, s, c) ==> d in all
    ensures c in all
  {
    hide Ways;
    var path :| Along(prog, s, from, c, path);
    ClosedHolds(prog, s, all, path, |path| - 1);
  }

  lemma {:induction false} RefusedWay(prog: seq<Inst>, s: Subject, a: State, c: Place)
    requires Ready(prog, s, a) && c in Refused(prog, s, a)
    ensures Back(prog, c) in Ways(prog, s, c)
    decreases Left(prog, s, a)
  {
    TriedNext(prog, s, a);
    if Guarded(prog, a) && c == a.at {
    } else if Next(prog, s, a).Some? {
      hide Ready, Next, Left, Tried, Refused, Ways;
      RefusedWay(prog, s, Next(prog, s, a).value, c);
    }
  }
}
