// src/regex/regex.c: threads of the matcher on compiled programs, and the guard on its back edges.

/** One alternative of the backtracking matcher: a thread between two backtracks, with the offsets it has
    recorded at back edges. */
module RegexThreads {
  import opened RegexText
  import opened RegexFilter
  import opened RegexCompiler
  import opened RegexAgreement
  import opened RegexProgram
  import opened RegexSafety

  /** The program counter, how much of the subject has been matched, and the last offset at each back edge. */
  datatype Thread = Thread(pc: nat, sp: nat, progress: seq<int>)

  /** The instruction at pc leads to itself or back. */
  predicate BackAt(prog: seq<Inst>, pc: nat) {
    pc < |prog| && match prog[pc] case Jmp(x) => x <= pc case Split(x, _) => x <= pc case _ => false
  }

  /** What arriving at a back edge records. */
  function Noted(prog: seq<Inst>, t: Thread): seq<int>
    requires t.pc < |t.progress|
  {
    if BackAt(prog, t.pc) then t.progress[t.pc := t.sp] else t.progress
  }

  /** The guard: the back edge was taken at this offset already, or further on. */
  predicate Cut(prog: seq<Inst>, t: Thread) {
    BackAt(prog, t.pc) && t.pc < |t.progress| && t.sp <= t.progress[t.pc]
  }

  /** One step, guard aside, on some subject of length `len`: whether a character, an anchor or a
      back-reference matches is left open. */
  predicate Steps(prog: seq<Inst>, len: nat, a: Thread, b: Thread) {
    a.pc < |prog| == |a.progress| &&
    match prog[a.pc]
    case Char(_) => a.sp < len && b == Thread(a.pc + 1, a.sp + 1, a.progress)
    case Any => a.sp < len && b == Thread(a.pc + 1, a.sp + 1, a.progress)
    case Set(_) => a.sp < len && b == Thread(a.pc + 1, a.sp + 1, a.progress)
    case Bol => b == Thread(a.pc + 1, a.sp, a.progress)
    case Eol => b == Thread(a.pc + 1, a.sp, a.progress)
    case Save(_) => b == Thread(a.pc + 1, a.sp, a.progress)
    case Backref(_) => b == Thread(a.pc + 1, b.sp, a.progress) && a.sp <= b.sp <= len
    case Jmp(x) => b == Thread(x, a.sp, Noted(prog, a))
    case Split(x, y) => b == Thread(x, a.sp, Noted(prog, a)) || b == Thread(y, a.sp, a.progress)
    case Match => false
  }

  predicate Path(prog: seq<Inst>, len: nat, path: seq<Thread>) {
    forall i :: 0 <= i < |path| - 1 ==> Steps(prog, len, path[i], path[i + 1])
  }

  /** A match attempt begins: nothing recorded. */
  function Fresh(prog: seq<Inst>, start: nat): Thread { Thread(0, start, seq(|prog|, _ => -1)) }

  // ---- plain programs

  /** How many steps remain before the next character, at most. */
  function Rank(prog: seq<Inst>, pc: nat): nat {
    if pc >= |prog| || Consumes(prog[pc]) || prog[pc].Match? then 0
    else 2 * (|prog| - pc) + if LoopJmp(prog, pc, 0) then 5 else 0
  }

  lemma {:induction false} RankFalls(prog: seq<Inst>, len: nat, a: Thread, b: Thread)
    requires FineFrom(prog, 0, true) && Steps(prog, len, a, b) && !Consumes(prog[a.pc])
    ensures Rank(prog, b.pc) < Rank(prog, a.pc)
  {
    assert Fine(prog, a.pc, 0, true);
  }

  function Fuel(prog: seq<Inst>, len: nat, t: Thread): nat
    requires t.sp <= len
  {
    (len - t.sp) * (2 * |prog| + 6) + Rank(prog, t.pc)
  }

  lemma {:induction false} FuelFalls(prog: seq<Inst>, len: nat, a: Thread, b: Thread)
    requires FineFrom(prog, 0, true) && Steps(prog, len, a, b) && a.sp <= len
    ensures a.sp <= b.sp <= len && Fuel(prog, len, b) < Fuel(prog, len, a)
  {
    hide FineFrom;
    var w := 2 * |prog| + 6;
    if !Consumes(prog[a.pc]) { RankFalls(prog, len, a, b); }
    assert Rank(prog, b.pc) < w;
    Trade(len - a.sp, len - b.sp, w);
  }

  lemma {:induction false} Trade(m: nat, n: nat, w: nat)
    requires n <= m
    ensures n < m ==> n * w + w <= m * w
    decreases m
  {
    if n < m {
      assert m * w == (m - 1) * w + w;
      if n < m - 1 { Trade(m - 1, n, w); }
    }
  }

  lemma {:induction false} RestPath(prog: seq<Inst>, len: nat, path: seq<Thread>)
    requires Path(prog, len, path) && 1 < |path|
    ensures Steps(prog, len, path[0], path[1]) && Path(prog, len, path[1..])
  {
    hide Steps;
    var rest := path[1..];
    forall i | 0 <= i < |rest| - 1 ensures Steps(prog, len, rest[i], rest[i + 1]) {
      assert Steps(prog, len, path[i + 1], path[(i + 1) + 1]);
    }
  }

  lemma {:induction false} PathBounded(prog: seq<Inst>, len: nat, path: seq<Thread>)
    requires FineFrom(prog, 0, true) && path != [] && path[0].sp <= len && Path(prog, len, path)
    ensures |path| <= Fuel(prog, len, path[0]) + 1
    decreases |path|
  {
    hide FineFrom, Fuel, Steps, Path;
    if 1 < |path| {
      RestPath(prog, len, path);
      FuelFalls(prog, len, path[0], path[1]);
      PathBounded(prog, len, path[1..]);
    }
  }

  /** Where a thread can be while an offset it has recorded is still its own: in the loop body the back edge
      leads to, or behind the back edge. */
  predicate Behind(prog: seq<Inst>, q: nat, pc: nat)
    requires q < |prog|
  {
    pc > q || (prog[q].Jmp? && q >= 2 && q - 2 <= pc < q) || (prog[q].Split? && pc + 1 == q)
  }

  ghost predicate Ahead(prog: seq<Inst>, t: Thread) {
    |t.progress| == |prog| && forall q :: 0 <= q < |prog| && BackAt(prog, q) ==>
      t.progress[q] <= t.sp && (t.progress[q] == t.sp ==> Behind(prog, q, t.pc))
  }

  lemma {:induction false} AheadKept(prog: seq<Inst>, len: nat, a: Thread, b: Thread)
    requires FineFrom(prog, 0, true) && Steps(prog, len, a, b) && Ahead(prog, a)
    ensures Ahead(prog, b)
  {
    assert Fine(prog, a.pc, 0, true);
    forall q | 0 <= q < |prog| && BackAt(prog, q)
      ensures b.progress[q] <= b.sp && (b.progress[q] == b.sp ==> Behind(prog, q, b.pc))
    {
      assert Fine(prog, q, 0, true);
    }
  }

  /** On a plain program the guard never cuts an alternative: between two visits to a back edge it consumes. */
  lemma {:induction false} NeverCut(prog: seq<Inst>, len: nat, path: seq<Thread>, k: nat)
    requires FineFrom(prog, 0, true) && Path(prog, len, path) && k < |path| && Ahead(prog, path[0])
    ensures Ahead(prog, path[k]) && !Cut(prog, path[k])
    decreases k
  {
    if k == 0 {
      NotCut(prog, path[0]);
    } else {
      RestPath(prog, len, path);
      AheadKept(prog, len, path[0], path[1]);
      NeverCut(prog, len, path[1..], k - 1);
    }
  }

  lemma {:induction false} NotCut(prog: seq<Inst>, t: Thread)
    requires Ahead(prog, t)
    ensures !Cut(prog, t)
  {
  }

  /** Every alternative of a pattern whose repeats are all on one-character atoms ends within a bound linear in
      subject and program, and is never cut short by the guard. */
  lemma {:induction false} PlainPatternsProgress(p: string, ere: bool, len: nat, start: nat, path: seq<Thread>)
    requires RegComp(p, ere).Ok? && Exact(p, ere) && start <= len
    requires path != [] && path[0] == Fresh(RegComp(p, ere).value.prog, start)
    requires Path(RegComp(p, ere).value.prog, len, path)
    ensures |path| <= (len + 1) * (2 * |RegComp(p, ere).value.prog| + 6)
    ensures forall k :: 0 <= k < |path| ==> !Cut(RegComp(p, ere).value.prog, path[k])
  {
    hide RegComp, Exact, FineFrom, Path, Cut;
    PlainExactly(p, ere);
    CompiledFine(p, ere);
    var prog := RegComp(p, ere).value.prog;
    PathBounded(prog, len, path);
    var w := 2 * |prog| + 6;
    Trade(len, len - start, w);
    assert (len + 1) * w == len * w + w;
    assert Ahead(prog, path[0]);
    forall k | 0 <= k < |path| ensures !Cut(prog, path[k]) { NeverCut(prog, len, path, k); }
  }

  // ---- an accepted pattern with a repeat on an empty group

  const HAZARD := "[A-[:]()*:]]"

  /** To the compiler the bracket expression is over at the first ']' ... */
  lemma {:induction false} HazardBracket()
    ensures Bracket(HAZARD, 1) == Ok(6)
  {
    var p := HAZARD;
    assert Members(p, 5, false) == Ok(6);
    assert Members(p, 4, false) == Members(p, 5, false);
    assert Members(p, 1, true) == Members(p, 4, false);
  }

  /** ... and to the filter it reaches the last one. */
  lemma {:induction false} HazardAccepted()
    ensures Scan(HAZARD, 0, true, false, false)
  {
    var p := HAZARD;
    assert Opens(p, 3);
    assert FindClose(p, 9, ':') == 9;
    assert FindClose(p, 8, ':') == 9;
    assert FindClose(p, 7, ':') == 9;
    assert FindClose(p, 6, ':') == 9;
    assert FindClose(p, 5, ':') == 9;
    assert BracketEnd(p, 11) == 11;
    assert BracketEnd(p, 3) == 11;
    assert BracketEnd(p, 2) == 11;
    assert BracketEnd(p, 1) == 11;
    assert BracketBody(p, 1) == 1;
    assert Scan(p, 12, true, true, false);
  }

  // the parser's state as it works through the pattern
  const S0 := Parser(0, [Save(0)], 1, {}, false, true)
  const S1 := Parser(6, [Save(0), Set(0)], 1, {}, true, true)
  const S2 := Parser(7, [Save(0), Set(0), Save(2)], 2, {}, false, true)
  const S3 := Parser(8, [Save(0), Set(0), Save(2), Save(3)], 2, {}, false, true)
  const LOOP := [Save(0), Set(0), Split(3, 6), Save(2), Save(3), Jmp(2)]
  const S4 := Parser(9, LOOP, 2, {}, false, false)
  const S5 := Parser(10, LOOP + [Char(':')], 2, {}, true, false)
  const S6 := Parser(11, LOOP + [Char(':')] + [Char(']')], 2, {}, true, false)
  const S7 := Parser(12, LOOP + [Char(':')] + [Char(']')] + [Char(']')], 2, {}, true, false)

  lemma {:induction false} HazardHead()
    ensures EreAtom(HAZARD, S0) == Ok(S1) && ApplyRepeat(HAZARD, true, S1, 1) == Ok(S1)
  {
    HazardBracket();
    assert [Save(0)] + [Set(0)] == S1.prog;
  }

  lemma {:induction false} HazardGroup()
    ensures EreAtom(HAZARD, S1) == Ok(S3)
  {
    assert S1.prog + [Save(2)] == S2.prog && S2.prog + [Save(3)] == S3.prog;
    assert EreBranch(HAZARD, S2, true) == Ok(S2);
    assert EreAlt(HAZARD, S2) == Ok(S2);
    assert Emit(S1.(ngroup := 2), 7, Save(2), false) == Ok(S2);
  }

  lemma {:induction false} HazardLoop()
    ensures ApplyRepeat(HAZARD, true, S3, 2) == Ok(S4)
  {
    var atom := S3.prog[2..];
    assert atom == [Save(2), Save(3)];
    assert Reloc(atom, 1) == [Save(2), Save(3)];
    assert S3.prog[..2] + Star(atom, 2, 0) == LOOP;
    assert Repeat1(HAZARD, true, S3, 2) == Ok(S4);
    assert ApplyRepeat(HAZARD, true, S4, 2) == Ok(S4);
  }

  lemma {:induction false} HazardLiteral(ps: Parser, r: Parser)
    requires 9 <= ps.pos < 12 && |ps.prog| < 100
    requires r == ps.(pos := ps.pos + 1, prog := ps.prog + [Char(HAZARD[ps.pos])], single := true)
    requires EreBranch(HAZARD, r, false) == Ok(S7)
    ensures EreBranch(HAZARD, ps, false) == Ok(S7)
  {
    assert EreAtom(HAZARD, ps) == Ok(r);
    assert ApplyRepeat(HAZARD, true, r, |ps.prog|) == Ok(r);
  }

  lemma {:induction false} HazardTail()
    ensures EreBranch(HAZARD, S4, false) == Ok(S7)
  {
    assert EreBranch(HAZARD, S7, false) == Ok(S7);
    HazardLiteral(S6, S7);
    HazardLiteral(S5, S6);
    HazardLiteral(S4, S5);
  }

  lemma {:induction false} HazardCompiles()
    ensures RegComp(HAZARD, true) == Ok(S7.(prog := S7.prog + [Save(1), Match]))
  {
    hide ApplyRepeat, EreAtom;
    HazardHead();
    HazardGroup();
    HazardLoop();
    HazardTail();
    assert EreBranch(HAZARD, S1, false) == Ok(S7);
    assert EreBranch(HAZARD, S0, true) == Ok(S7);
    assert EreAlt(HAZARD, S0) == Ok(S7);
  }

  const HAZARD_PROG := S7.prog + [Save(1), Match]

  /** Offsets recorded on HAZARD: none, or 1 at the loop's back edge. */
  const NONE_YET := seq(|HAZARD_PROG|, _ => -1)
  const ONE_ROUND := NONE_YET[5 := 1]

  const HAZARD_PATH := [
    Thread(0, 0, NONE_YET), Thread(1, 0, NONE_YET), Thread(2, 1, NONE_YET), Thread(3, 1, NONE_YET),
    Thread(4, 1, NONE_YET),
    Thread(5, 1, NONE_YET), Thread(2, 1, ONE_ROUND), Thread(3, 1, ONE_ROUND), Thread(4, 1, ONE_ROUND),
    Thread(5, 1, ONE_ROUND)]

  /** The filter accepts it, a repeat applies to an empty group, and on any subject with a character some
      alternative comes round without consuming and is cut by the guard. */
  lemma {:induction false} FilterMissesOneForm(len: nat)
    requires 0 < len
    ensures RegComp(HAZARD, true).Ok? && Scan(HAZARD, 0, true, false, false)
    ensures !RegComp(HAZARD, true).value.plain && !Exact(HAZARD, true)
    ensures RegComp(HAZARD, true).value.prog == HAZARD_PROG && HAZARD_PATH[0] == Fresh(HAZARD_PROG, 0)
    ensures Path(HAZARD_PROG, len, HAZARD_PATH) && Cut(HAZARD_PROG, HAZARD_PATH[9])
  {
    HazardAccepted();
    HazardCompiles();
    PlainExactly(HAZARD, true);
    hide RegComp, Scan, Exact;
    HazardRound(len);
  }

  lemma {:induction false} HazardRound(len: nat)
    requires 0 < len
    ensures Path(HAZARD_PROG, len, HAZARD_PATH) && Cut(HAZARD_PROG, HAZARD_PATH[9])
  {
    var prog := HAZARD_PROG;
    assert prog[0] == Save(0) && prog[1] == Set(0) && prog[2] == Split(3, 6);
    assert prog[3] == Save(2) && prog[4] == Save(3);
    assert prog[5] == Jmp(2) && |prog| == 11;
    assert ONE_ROUND[5] == 1;
    assert Steps(prog, len, HAZARD_PATH[5], HAZARD_PATH[6]);
  }
}
