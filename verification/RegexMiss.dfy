// src/regex/regex.c: a match that regexec does not find.

/** `.*a.*b` on `acbac`: the match at the front is lost. */
module RegexMiss {
  import opened Options
  import opened RegexCompiler
  import opened RegexProgram
  import opened RegexThreads
  import opened RegexMachine
  import opened RegexGrammar
  import opened RegexMatcher
  import opened RegexExec
  import opened RegexLanguage

  const PATTERN := ".*a.*b"
  const TEXT := "acbac"

  const PROG := [Save(0), Split(2, 4), Any, Jmp(1), Char('a'), Split(6, 8), Any, Jmp(5), Char('b'), Save(1), Match]

  // ---- it compiles to that

  const P0 := Parser(0, [Save(0)], 1, {}, false, true)
  const P1 := Parser(2, PROG[..4], 1, {}, false, true)
  const P2 := Parser(3, PROG[..5], 1, {}, true, true)
  const P3 := Parser(5, PROG[..8], 1, {}, false, true)
  const P4 := Parser(6, PROG[..9], 1, {}, true, true)

  /** A starred dot. */
  lemma {:induction false} StarCompiles(ps: Parser, r: Parser)
    requires (ps == P0 && r == P1) || (ps == P2 && r == P3)
    ensures EreAtom(PATTERN, ps).Ok? && ApplyRepeat(PATTERN, true, EreAtom(PATTERN, ps).value, |ps.prog|) == Ok(r)
  {
    var p, k := PATTERN, |ps.prog|;
    var a := ps.(pos := ps.pos + 1, prog := ps.prog + [Any], single := true);
    assert EreAtom(p, ps) == Ok(a);
    assert a.prog[k..] == [Any] && a.prog[..k] == ps.prog;
    assert Reloc([Any], 1) == [Any];
    assert Star([Any], k, 0) == [Split(k + 1, k + 3), Any, Jmp(k)];
    assert ps.prog + [Split(k + 1, k + 3), Any, Jmp(k)] == r.prog;
    assert Repeat1(p, true, a, k) == Ok(r);
    assert ApplyRepeat(p, true, r, k) == Ok(r);
  }

  lemma {:induction false} CharCompiles(ps: Parser, r: Parser)
    requires (ps == P1 && r == P2) || (ps == P3 && r == P4)
    ensures EreAtom(PATTERN, ps) == Ok(r) && ApplyRepeat(PATTERN, true, r, |ps.prog|) == Ok(r)
  {
    assert ps.prog + [Char(PATTERN[ps.pos])] == r.prog;
  }

  /** One piece of the pattern, and the rest. */
  lemma {:induction false} PieceCompiles(ps: Parser, q: Parser, first: bool)
    requires ps in [P0, P1, P2, P3] && EreAtom(PATTERN, ps).Ok?
    requires ApplyRepeat(PATTERN, true, EreAtom(PATTERN, ps).value, |ps.prog|) == Ok(q)
    requires EreBranch(PATTERN, q, false) == Ok(P4)
    ensures EreBranch(PATTERN, ps, first) == Ok(P4)
  {
    hide EreAtom, ApplyRepeat;
    assert ps.pos < 6 && PATTERN[ps.pos] in ".ab";
  }

  lemma {:induction false} BranchCompiles()
    ensures EreBranch(PATTERN, P0, true) == Ok(P4)
  {
    assert EreBranch(PATTERN, P4, false) == Ok(P4);
    hide EreAtom, ApplyRepeat, EreBranch;
    CharCompiles(P3, P4);
    PieceCompiles(P3, P4, false);
    StarCompiles(P2, P3);
    PieceCompiles(P2, P3, false);
    CharCompiles(P1, P2);
    PieceCompiles(P1, P2, false);
    StarCompiles(P0, P1);
    PieceCompiles(P0, P1, true);
  }

  lemma {:induction false} Compiles()
    ensures RegComp(PATTERN, true) == Ok(P4.(prog := PROG))
  {
    BranchCompiles();
    hide EreBranch;
    assert EreAlt(PATTERN, P0) == Ok(P4);
    assert P4.prog + [Save(1), Match] == PROG;
  }

  // ---- the subject

  const SUBJECT := Subject(5, (inst: Inst, i: nat) => i < 5 && (inst.Any? || inst == Char(TEXT[i])), (_, _, _) => false)

  function At(pc: nat, sp: nat): Place { Place(pc, sp, [0, -1]) }

  ghost predicate There(c: Place) { Reach(PROG, SUBJECT, Start(0, 2), c) }

  lemma {:induction false} Hop(c: Place, d: Place)
    requires There(c) && d in Ways(PROG, SUBJECT, c)
    ensures There(d)
  {
    ReachFurther(PROG, SUBJECT, Start(0, 2), c, d);
  }

  lemma {:induction false} HalfWay()
    ensures There(At(5, 1))
  {
    ReachSelf(PROG, SUBJECT, Start(0, 2));
    hide Reach;
    assert Start(0, 2).slots[0 := 0] == [0, -1];
    Hop(Start(0, 2), At(1, 0));
    Hop(At(1, 0), At(4, 0));
    Hop(At(4, 0), At(5, 1));
  }

  /** Taking no character in the first star and one in the second matches the first three characters. */
  lemma {:induction false} ThereIsOne()
    ensures Reached(PROG, SUBJECT, 0, 2, [0, 3])
  {
    HalfWay();
    hide There;
    Hop(At(5, 1), At(6, 1));
    Hop(At(6, 1), At(7, 2));
    Hop(At(7, 2), At(5, 2));
    Hop(At(5, 2), At(8, 2));
    Hop(At(8, 2), At(9, 3));
    assert [0, -1][1 := 3] == [0, 3];
    Hop(At(9, 3), Place(10, 3, [0, 3]));
    Arrived();
  }

  lemma {:induction false} Arrived()
    requires There(Place(10, 3, [0, 3]))
    ensures Reached(PROG, SUBJECT, 0, 2, [0, 3])
  {
  }

  // ---- the attempt at the front

  function Marks(first: int, second: int): seq<int> { [-1, -1, -1, first, -1, -1, -1, second, -1, -1, -1] }

  function Mid(pc: nat, sp: nat, first: int, second: int, stack: seq<Place>): State {
    State(At(pc, sp), Marks(first, second), stack)
  }

  ghost predicate NoMatchFrom(a: State) {
    Ready(PROG, SUBJECT, a) ==> forall c :: c in Tried(PROG, SUBJECT, a) ==> !AtMatch(PROG, c)
  }

  lemma {:induction false} Step(a: State, b: State)
    requires |a.progress| == |PROG| && !AtMatch(PROG, a.at) && Next(PROG, SUBJECT, a) == Some(b) && NoMatchFrom(b)
    ensures NoMatchFrom(a)
  {
    if Ready(PROG, SUBJECT, a) { TriedNext(PROG, SUBJECT, a); }
  }

  /** An instruction that fails, or a back edge refused, and the alternative on top. */
  lemma {:induction false} Falls(
    pc: nat, sp: nat, first: int, second: int, stack: seq<Place>, pc': nat, sp': nat)
    requires NoMatchFrom(Mid(pc', sp', first, second, stack)) && sp <= 5
    requires (sp == 5 && pc in [2, 4, 6, 8]) || (sp < 5 && pc == 4 && TEXT[sp] != 'a')
             || (sp < 5 && pc == 8 && TEXT[sp] != 'b') || (pc == 7 && sp <= second)
    ensures NoMatchFrom(Mid(pc, sp, first, second, stack + [At(pc', sp')]))
  {
    var more := stack + [At(pc', sp')];
    assert more[..|stack|] == stack;
    Step(Mid(pc, sp, first, second, more), Mid(pc', sp', first, second, stack));
  }

  /** The loops' splits. */
  lemma {:induction false} Forks(pc: nat, sp: nat, first: int, second: int, stack: seq<Place>)
    requires pc in [1, 5] && NoMatchFrom(Mid(pc + 1, sp, first, second, stack + [At(pc + 3, sp)]))
    ensures NoMatchFrom(Mid(pc, sp, first, second, stack))
  {
    Step(Mid(pc, sp, first, second, stack), Mid(pc + 1, sp, first, second, stack + [At(pc + 3, sp)]));
  }

  /** The dots, and an `a` where there is one. */
  lemma {:induction false} Eats(pc: nat, sp: nat, first: int, second: int, stack: seq<Place>)
    requires sp < 5 && (pc in [2, 6] || (pc == 4 && TEXT[sp] == 'a'))
    requires NoMatchFrom(Mid(pc + 1, sp + 1, first, second, stack))
    ensures NoMatchFrom(Mid(pc, sp, first, second, stack))
  {
    Step(Mid(pc, sp, first, second, stack), Mid(pc + 1, sp + 1, first, second, stack));
  }

  lemma {:induction false} FirstBack(sp: nat, first: int, second: int, stack: seq<Place>)
    requires first < sp && NoMatchFrom(Mid(1, sp, sp, second, stack))
    ensures NoMatchFrom(Mid(3, sp, first, second, stack))
  {
    assert Marks(first, second)[3 := sp] == Marks(sp, second);
    Step(Mid(3, sp, first, second, stack), Mid(1, sp, sp, second, stack));
  }

  lemma {:induction false} SecondBack(sp: nat, first: int, second: int, stack: seq<Place>)
    requires second < sp && NoMatchFrom(Mid(5, sp, first, sp, stack))
    ensures NoMatchFrom(Mid(7, sp, first, second, stack))
  {
    assert Marks(first, second)[7 := sp] == Marks(first, sp);
    Step(Mid(7, sp, first, second, stack), Mid(5, sp, first, sp, stack));
  }

  /** The first star's exits up to k. */
  function Exits(k: nat): seq<Place> { seq(k, i requires 0 <= i < k => At(4, i)) }

  lemma {:induction false} ExitsMore(k: nat)
    ensures Exits(k) + [At(4, k)] == Exits(k + 1)
  {
  }

  /** The `a` at the front, last of all: the second star may not go round, for it has been at the end. */
  lemma {:induction false} FrontLost()
    ensures NoMatchFrom(Mid(4, 0, 5, 5, Exits(0)))
  {
    LastFails();
    hide NoMatchFrom, Mid, At;
    Falls(7, 2, 5, 5, [], 8, 1);
    assert [] + [At(8, 1)] == [At(8, 1)];
    Eats(6, 1, 5, 5, [At(8, 1)]);
    Forks(5, 1, 5, 5, []);
    assert Exits(0) == [];
    Eats(4, 0, 5, 5, []);
  }

  lemma {:induction false} LastFails()
    ensures NoMatchFrom(Mid(8, 1, 5, 5, []))
  {
    var a := Mid(8, 1, 5, 5, []);
    assert Next(PROG, SUBJECT, a).None?;
    if Ready(PROG, SUBJECT, a) { TriedNext(PROG, SUBJECT, a); }
  }

  /** The second `a`, from which the second star goes to the end. */
  lemma {:induction false} SecondTried()
    ensures NoMatchFrom(Mid(4, 3, 5, -1, Exits(3)))
  {
    hide NoMatchFrom, Mid, At, Exits;
    FrontLost();
    ExitsMore(0);
    Falls(4, 1, 5, 5, Exits(0), 4, 0);
    ExitsMore(1);
    Falls(4, 2, 5, 5, Exits(1), 4, 1);
    ExitsMore(2);
    Falls(8, 4, 5, 5, Exits(2), 4, 2);
    var some := Exits(3) + [At(8, 4)];
    Falls(8, 5, 5, 5, Exits(3), 8, 4);
    Falls(6, 5, 5, 5, some, 8, 5);
    Forks(5, 5, 5, 5, some);
    SecondBack(5, 5, -1, some);
    Eats(6, 4, 5, -1, some);
    Forks(5, 4, 5, -1, Exits(3));
    Eats(4, 3, 5, -1, Exits(3));
  }

  /** The first star goes to the end, and its exits are tried from there. */
  lemma {:induction false} FirstEnds()
    ensures NoMatchFrom(Mid(1, 5, 5, -1, Exits(5)))
  {
    hide NoMatchFrom, Mid, At, Exits;
    SecondTried();
    ExitsMore(3);
    Falls(4, 4, 5, -1, Exits(3), 4, 3);
    ExitsMore(4);
    Falls(4, 5, 5, -1, Exits(4), 4, 4);
    ExitsMore(5);
    Falls(2, 5, 5, -1, Exits(5), 4, 5);
    Forks(1, 5, 5, -1, Exits(5));
  }

  lemma {:induction false} FirstRounds(sp: nat)
    requires sp <= 5
    ensures NoMatchFrom(Mid(1, sp, if sp == 0 then -1 else sp, -1, Exits(sp)))
    decreases 5 - sp
  {
    hide NoMatchFrom, Mid, At, Exits;
    if sp == 5 {
      FirstEnds();
    } else {
      var first := if sp == 0 then -1 else sp;
      FirstRounds(sp + 1);
      ExitsMore(sp);
      FirstBack(sp + 1, first, -1, Exits(sp + 1));
      Eats(2, sp, first, -1, Exits(sp + 1));
      Forks(1, sp, first, -1, Exits(sp));
    }
  }

  lemma {:induction false} FrontTried()
    ensures NoMatchFrom(First(PROG, 0, 2))
  {
    FirstRounds(0);
    var a, b := First(PROG, 0, 2), Mid(1, 0, -1, -1, []);
    assert Exits(0) == [];
    assert a.progress == Marks(-1, -1) && [-1, -1][0 := 0] == [0, -1];
    assert a.at.slots == [-1, -1];
    Step(a, b);
  }

  // ---- the attempts further on

  /** From a later start the only `a` is the second one, and no `b` follows. */
  predicate Late(c: Place) { 1 <= c.sp && c.pc <= 8 && (c.pc >= 5 ==> c.sp >= 4) }

  lemma {:induction false} LateKept(c: Place, d: Place)
    requires Late(c) && d in Ways(PROG, SUBJECT, c)
    ensures Late(d)
  {
  }

  lemma {:induction false} StaysLate(path: seq<Place>, k: nat)
    requires Route(PROG, SUBJECT, path) && k < |path| && Late(path[0])
    ensures Late(path[k])
  {
    if k > 0 {
      StaysLate(path, k - 1);
      assert path[(k - 1) + 1] in Ways(PROG, SUBJECT, path[k - 1]);
      LateKept(path[k - 1], path[k]);
    }
  }

  lemma {:induction false} NoneLater(start: nat, c: Place)
    requires 0 < start && Reach(PROG, SUBJECT, Start(start, 2), c)
    ensures !AtMatch(PROG, c)
  {
    var path :| Along(PROG, SUBJECT, Start(start, 2), c, path);
    StaysLate(path, |path| - 1);
  }

  // ---- the whole

  lemma {:induction false} NoneTried(start: nat, c: Place)
    requires FineFrom(PROG, 0, false) && start <= SUBJECT.len && c in TriedFrom(PROG, SUBJECT, start, 2)
    ensures !AtMatch(PROG, c)
  {
    if start == 0 {
      FrontTried();
      FirstReady(PROG, SUBJECT, 0, 2);
    } else {
      FromReach(PROG, SUBJECT, start, 2, c);
      NoneLater(start, c);
    }
  }

  /** The pattern matches the first three characters, and regexec, whatever its budget, reports no match. */
  lemma {:induction false} MatchMissed(budget: nat, r: Report) returns (t: Tree)
    ensures RegComp(PATTERN, true).Ok? && Written(PATTERN, t, true) && Matches(t, SUBJECT, 0, 2, [0, 3])
    ensures Answers(PATTERN, true, SUBJECT, 2, budget, r) ==> !r.Matched?
  {
    Compiles();
    t := CompiledMeans(PATTERN, true);
    CompiledReady(PATTERN, true);
    hide RegComp, FineFrom, Matches, TriedFrom, TurnsFrom;
    ThereIsOne();
    ReachedMatches(PROG, t, SUBJECT, 0, 2, [0, 3]);
    if Answers(PATTERN, true, SUBJECT, 2, budget, r) && r.Matched? {
      var c :| c in TriedFrom(PROG, SUBJECT, r.start, 2) && AtMatch(PROG, c) && c.slots == r.slots;
      NoneTried(r.start, c);
    }
  }
}
