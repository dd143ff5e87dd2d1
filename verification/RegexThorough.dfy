// src/regex/regex.c: programs on which the guard at back edges loses nothing.

/** When an attempt tries everything. */
module RegexThorough {
  import opened RegexCompiler
  import opened RegexProgram
  import opened RegexThreads
  import opened RegexMachine
  import opened RegexMatcher

  // ---- a single loop that nothing leads back to

  /** There is no back edge but the one at b, and every choice before it has its second way behind it. */
  predicate OneLoop(prog: seq<Inst>, b: nat) {
    && (forall q :: 0 <= q < |prog| && BackAt(prog, q) ==> q == b)
    && (forall pc :: 0 <= pc < b && pc < |prog| && prog[pc].Split? ==> prog[pc].y > b)
  }

  function ThreadOf(a: State): Thread { Thread(a.at.pc, a.at.sp, a.progress) }

  /** Until it has left the loop the thread is the first alternative, and has not been where it is. */
  ghost predicate OnWay(prog: seq<Inst>, b: nat, a: State) {
    && |a.progress| == |prog|
    && (forall k :: 0 <= k < |a.stack| ==> a.stack[k].pc > b)
    && (a.at.pc <= b ==> Ahead(prog, ThreadOf(a)))
  }

  lemma {:induction false} NotRefused(prog: seq<Inst>, b: nat, a: State)
    requires OneLoop(prog, b) && OnWay(prog, b, a)
    ensures !Guarded(prog, a)
  {
    if a.at.pc <= b {
      hide Ahead;
      NotCut(prog, ThreadOf(a));
    }
  }

  lemma {:induction false} WayKept(prog: seq<Inst>, s: Subject, b: nat, a: State)
    requires FineFrom(prog, 0, true) && OneLoop(prog, b) && OnWay(prog, b, a) && Next(prog, s, a).Some?
    ensures OnWay(prog, b, Next(prog, s, a).value)
  {
    var c := Next(prog, s, a).value;
    NotRefused(prog, b, a);
    var ways := Ways(prog, s, a.at);
    if ways != [] {
      assert Fine(prog, a.at.pc, 0, true);
      NextIsStep(prog, s, a);
      Onward(prog, s, b, a);
      hide FineFrom, Ahead;
      if a.at.pc <= b { AheadKept(prog, s.len, ThreadOf(a), ThreadOf(c)); }
    }
  }

  /** Behind the loop every way leads on. */
  lemma {:induction false} Onward(prog: seq<Inst>, s: Subject, b: nat, a: State)
    requires FineFrom(prog, 0, true) && OneLoop(prog, b) && |a.progress| == |prog|
    requires Ways(prog, s, a.at) != [] && !Guarded(prog, a)
    ensures var c := Next(prog, s, a).value;
            && (a.at.pc > b ==> c.at.pc > b) && Steps(prog, s.len, ThreadOf(a), ThreadOf(c))
            && (c.stack == a.stack ||
                (|c.stack| == |a.stack| + 1 && c.stack[..|a.stack|] == a.stack && c.stack[|a.stack|].pc > b))
  {
    assert Fine(prog, a.at.pc, 0, true);
  }

  lemma {:induction false} NeverRefused(prog: seq<Inst>, s: Subject, b: nat, a: State)
    requires FineFrom(prog, 0, true) && OneLoop(prog, b) && OnWay(prog, b, a) && Ready(prog, s, a)
    ensures Refused(prog, s, a) == {}
    decreases Left(prog, s, a)
  {
    NotRefused(prog, b, a);
    TriedNext(prog, s, a);
    if Next(prog, s, a).Some? {
      WayKept(prog, s, b, a);
      hide OnWay, FineFrom, OneLoop, Next, Ready, Left;
      NeverRefused(prog, s, b, Next(prog, s, a).value);
    }
  }

  /** With one loop, on a single character and with no choice in front that comes back to it, everything is tried. */
  lemma {:induction false} OneLoopThorough(prog: seq<Inst>, s: Subject, start: nat, n: nat, b: nat)
    requires FineFrom(prog, 0, true) && FineFrom(prog, 0, false) && OneLoop(prog, b) && start <= s.len
    ensures RefusedFrom(prog, s, start, n) == {} && TriesAll(prog, s, start, n)
  {
    FirstReady(prog, s, start, n);
    TriesAllExactly(prog, s, start, n);
    hide FineFrom, TriesAll, Ready, Left;
    NeverRefused(prog, s, b, First(prog, start, n));
  }
}
