// src/regex/regex.c: every program regcomp hands out is well formed.

/** Every program regcomp hands out. */
module RegexSafety {
  import opened RegexText
  import opened RegexCompiler
  import opened RegexProgram

  /** The code from `start` on is within bounds, and strictly so if nothing has been amiss. */
  ghost predicate Good(ps: Parser, start: nat) {
    FineFrom(ps.prog, start, false) && (ps.plain ==> FineFrom(ps.prog, start, true))
    && (ps.single ==> |ps.prog| == start + 1 && Consumes(ps.prog[start]))
  }

  lemma {:induction false} Repeat1Good(p: string, ere: bool, ps: Parser, start: nat)
    requires ps.pos < |p| && start <= |ps.prog| <= MAX_PROG && Repeats(p, ps.pos, ere)
    requires Repeat1(p, ere, ps, start).Ok? && Good(ps, start)
    ensures Good(Repeat1(p, ere, ps, start).value, start)
  {
    WrapFine(p, ere, ps, start, false);
    if ps.plain && ps.single { WrapFine(p, ere, ps, start, true); }
  }

  lemma {:induction false} WrapFine(p: string, ere: bool, ps: Parser, start: nat, strict: bool)
    requires ps.pos < |p| && start <= |ps.prog| <= MAX_PROG && Repeats(p, ps.pos, ere)
    requires Repeat1(p, ere, ps, start).Ok? && Wrappable(ps.prog, start, strict)
    ensures FineFrom(Repeat1(p, ere, ps, start).value.prog, start, strict)
  {
    hide Bounds, FineFrom, Star, Plus, Optional, Interval, Oversized;
    var c := p[ps.pos];
    if c == '*' {
      StarFine(ps.prog, start, ps.prog[..start], 0, strict);
    } else if c == '+' {
      PlusFine(ps.prog, start, strict);
    } else if c == '?' {
      OptionalFine(ps.prog, start, ps.prog[..start], 0, strict);
    } else {
      IntervalFine(ps.prog, start, Bounds(p, ps.pos + if ere then 1 else 2).value, strict);
    }
  }

  lemma {:induction false} ApplyRepeatGood(p: string, ere: bool, ps: Parser, start: nat)
    requires ps.pos <= |p| && start <= |ps.prog| <= MAX_PROG && Good(ps, start)
    requires ApplyRepeat(p, ere, ps, start).Ok?
    ensures Good(ApplyRepeat(p, ere, ps, start).value, start)
    decreases |p| - ps.pos
  {
    hide Good, Repeat1;
    if ps.pos < |p| && Repeats(p, ps.pos, ere) {
      Repeat1Good(p, ere, ps, start);
      ApplyRepeatGood(p, ere, Repeat1(p, ere, ps, start).value, start);
    }
  }

  /** New code after good code. */
  ghost predicate Grown(ps: Parser, r: Parser) {
    |ps.prog| <= |r.prog| && r.prog[..|ps.prog|] == ps.prog && (r.plain ==> ps.plain)
    && FineFrom(r.prog, |ps.prog|, false) && (r.plain ==> FineFrom(r.prog, |ps.prog|, true))
  }

  lemma {:induction false} GrownTrans(a: Parser, b: Parser, c: Parser)
    requires Grown(a, b) && Grown(b, c)
    ensures Grown(a, c)
  {
    hide Fine;
    assert c.prog[..|a.prog|] == c.prog[..|b.prog|][..|a.prog|];
    Append(b.prog, c.prog, |a.prog|, false);
    if c.plain { Append(b.prog, c.prog, |a.prog|, true); }
  }

  lemma {:induction false} EmitGrown(ps: Parser, pos: nat, inst: Inst, single: bool, ngroup: nat, closed: set<nat>)
    requires !inst.Jmp? && !inst.Split?
    ensures Grown(ps, ps.(pos := pos, prog := ps.prog + [inst], single := single, ngroup := ngroup, closed := closed))
  {
  }

  /** What an atom leaves behind can be repeated. */
  ghost predicate Atomic(ps: Parser, r: Parser) {
    Grown(ps, r) && (r.single ==> |r.prog| == |ps.prog| + 1 && Consumes(r.prog[|ps.prog|]))
  }

  lemma {:induction false} EreAtomSafe(p: string, ps: Parser)
    requires ps.pos < |p| && |ps.prog| <= MAX_PROG && EreAtom(p, ps).Ok?
    ensures Atomic(ps, EreAtom(p, ps).value)
    decreases |p| - ps.pos, 0
  {
    hide FineFrom, EreAlt, Bracket;
    var c := p[ps.pos];
    if c == '(' {
      var g := ps.ngroup;
      var q := Emit(ps.(ngroup := g + 1), ps.pos + 1, Save(2 * g), false).value;
      EmitGrown(ps, ps.pos + 1, Save(2 * g), false, g + 1, ps.closed);
      EreAltSafe(p, q);
      var r := EreAlt(p, q).value;
      GrownTrans(ps, q, r);
      var e := Emit(r, r.pos + 1, Save(2 * g + 1), false).value;
      EmitGrown(r, r.pos + 1, Save(2 * g + 1), false, r.ngroup, r.closed);
      GrownTrans(ps, r, e);
    } else {
      var r := EreAtom(p, ps).value;
      EmitGrown(ps, r.pos, r.prog[|ps.prog|], r.single, ps.ngroup, ps.closed);
    }
  }

  /** An atom and its repeats. */
  lemma {:induction false} ItemGrown(p: string, ere: bool, ps: Parser, a: Parser)
    requires a.pos <= |p| && |a.prog| <= MAX_PROG && Atomic(ps, a)
    requires ApplyRepeat(p, ere, a, |ps.prog|).Ok?
    ensures Grown(ps, ApplyRepeat(p, ere, a, |ps.prog|).value)
  {
    hide FineFrom, ApplyRepeat;
    ApplyRepeatGood(p, ere, a, |ps.prog|);
  }

  lemma {:induction false} GrownRefl(ps: Parser)
    ensures Grown(ps, ps)
  {
  }

  lemma {:induction false} EreBranchSafe(p: string, ps: Parser, first: bool)
    requires ps.pos <= |p| && |ps.prog| <= MAX_PROG && EreBranch(p, ps, first).Ok?
    ensures Grown(ps, EreBranch(p, ps, first).value)
    decreases |p| - ps.pos, 1
  {
    hide Grown, EreAtom, ApplyRepeat;
    var c := At(p, ps.pos);
    if ps.pos == |p| || c == '|' || c == ')' {
      GrownRefl(ps);
    } else {
      EreAtomSafe(p, ps);
      var a := EreAtom(p, ps).value;
      ItemGrown(p, true, ps, a);
      var q := ApplyRepeat(p, true, a, |ps.prog|).value;
      EreBranchSafe(p, q, false);
      GrownTrans(ps, q, EreBranch(p, q, false).value);
    }
  }

  /** Two alternatives: a split, the first one moved by one place, a jump past the second. */
  lemma {:induction false} AltFine(pre: seq<Inst>, b: seq<Inst>, q: seq<Inst>, r: seq<Inst>, strict: bool)
    requires |pre| <= |b| && FineFrom(b, |pre|, strict)
    requires q == pre + ([Split(|pre| + 1, |b| + 2)] + Reloc(b[|pre|..], 1) + [Jmp(0)])
    requires |q| <= |r| && r[..|q|] == q && FineFrom(r, |q|, strict)
    ensures FineFrom(r[|q| - 1 := Jmp(|r|)], |pre|, strict)
  {
    var j, start := |q| - 1, |pre|;
    var s1 := pre + [Split(start + 1, |b| + 2)];
    var s2 := s1 + Reloc(b[start..], 1);
    var f := r[j := Jmp(|r|)];
    Shift(b, start, s1, 1, strict);
    assert q[..j] == s2;
    assert f[..j] == r[..j] == r[..|q|][..j] == s2;
    forall pc | start <= pc < |f| ensures Fine(f, pc, start, strict) {
      if pc == start {
        assert f[pc] == s2[pc];
      } else if pc < j {
        assert f[|s1|..j] == f[..j][|s1|..] == s2[|s1|..];
        Carry(s2, f, |s1|, start, pc, strict);
      } else if pc > j {
        assert f[|q|..] == r[|q|..];
        Carry(r, f, |q|, start, pc, strict);
      }
    }
  }

  lemma {:induction false} EreAltSafe(p: string, ps: Parser)
    requires ps.pos <= |p| && |ps.prog| <= MAX_PROG && EreAlt(p, ps).Ok?
    ensures Grown(ps, EreAlt(p, ps).value)
    decreases |p| - ps.pos, 2
  {
    hide EreBranch, Reloc, FineFrom;
    EreBranchSafe(p, ps, true);
    var start, b := |ps.prog|, EreBranch(p, ps, true).value;
    if At(p, b.pos) == '|' {
      var len := |b.prog| - start;
      var code := [Split(start + 1, start + len + 2)] + Reloc(b.prog[start..], 1) + [Jmp(0)];
      var q := b.(pos := b.pos + 1, prog := ps.prog + code);
      EreAltSafe(p, q);
      var r := EreAlt(p, q).value;
      AltFine(ps.prog, b.prog, q.prog, r.prog, false);
      if r.plain { AltFine(ps.prog, b.prog, q.prog, r.prog, true); }
      var f := r.prog[start + len + 1 := Jmp(|r.prog|)];
      assert f[..start] == r.prog[..start] == r.prog[..|q.prog|][..start] == ps.prog;
    }
  }

  lemma {:induction false} BreAtomSafe(p: string, ps: Parser, atStart: bool)
    requires ps.pos < |p| && |ps.prog| <= MAX_PROG && BreAtom(p, ps, atStart).Ok?
    ensures Atomic(ps, BreAtom(p, ps, atStart).value)
    decreases |p| - ps.pos, 0
  {
    hide FineFrom, BreBranch, Bracket;
    var i, r := ps.pos, BreAtom(p, ps, atStart).value;
    if p[i] == '\\' && At(p, i + 1) == '(' {
      var g := ps.ngroup;
      var q := Emit(ps.(ngroup := g + 1), i + 2, Save(2 * g), false).value;
      EmitGrown(ps, i + 2, Save(2 * g), false, g + 1, ps.closed);
      BreBranchSafe(p, q, true);
      var b := BreBranch(p, q, true).value;
      GrownTrans(ps, q, b);
      EmitGrown(b, b.pos + 2, Save(2 * g + 1), false, b.ngroup, r.closed);
      GrownTrans(ps, b, r);
    } else {
      EmitGrown(ps, r.pos, r.prog[|ps.prog|], r.single, ps.ngroup, ps.closed);
    }
  }

  lemma {:induction false} BreBranchSafe(p: string, ps: Parser, first: bool)
    requires ps.pos <= |p| && |ps.prog| <= MAX_PROG && BreBranch(p, ps, first).Ok?
    ensures Grown(ps, BreBranch(p, ps, first).value)
    decreases |p| - ps.pos, 1
  {
    hide Grown, BreAtom, ApplyRepeat;
    var c := At(p, ps.pos);
    if ps.pos == |p| || (c == '\\' && At(p, ps.pos + 1) == ')') {
      GrownRefl(ps);
    } else {
      BreAtomSafe(p, ps, first);
      var a := BreAtom(p, ps, first).value;
      if first && (c == '^' || c == '*') {
        BreBranchSafe(p, a, c == '^');
        GrownTrans(ps, a, BreBranch(p, a, c == '^').value);
      } else {
        ItemGrown(p, false, ps, a);
        var q := ApplyRepeat(p, false, a, |ps.prog|).value;
        BreBranchSafe(p, q, false);
        GrownTrans(ps, q, BreBranch(p, q, false).value);
      }
    }
  }

  /** Every jump of a compiled program leads to one of its instructions, and in a plain
      program the only way back is over an instruction that consumes a character. */
  lemma {:induction false} CompiledFine(p: string, ere: bool)
    requires RegComp(p, ere).Ok?
    ensures var r := RegComp(p, ere).value;
            0 < |r.prog| && r.prog[|r.prog| - 1] == Match && FineFrom(r.prog, 0, r.plain)
    ensures forall pc, x :: x in Targets(RegComp(p, ere).value.prog, pc) ==> x < |RegComp(p, ere).value.prog|
  {
    hide EreAlt, BreBranch, Fine;
    var ps := Parser(0, [Save(0)], 1, {}, false, true);
    var r := if ere then EreAlt(p, ps).value else BreBranch(p, ps, true).value;
    if ere { EreAltSafe(p, ps); } else { BreBranchSafe(p, ps, true); }
    Finish(r, ps, r.plain);
  }

  function Targets(prog: seq<Inst>, pc: nat): set<nat> {
    if pc >= |prog| then {} else
    match prog[pc] case Jmp(x) => {x} case Split(x, y) => {x, y} case _ => {}
  }

  lemma {:induction false} Finish(r: Parser, ps: Parser, strict: bool)
    requires ps.prog == [Save(0)] && Grown(ps, r) && (strict ==> r.plain)
    ensures FineFrom(r.prog + [Save(1), Match], 0, strict)
    ensures forall pc, x :: x in Targets(r.prog + [Save(1), Match], pc) ==> x < |r.prog| + 2
  {
    var prog := r.prog + [Save(1), Match];
    assert r.prog[0] == r.prog[..1][0] == Save(0);
    forall pc | 0 <= pc < |prog|
      ensures Fine(prog, pc, 0, strict) && forall x :: x in Targets(prog, pc) ==> x < |prog| {
      if 1 <= pc < |r.prog| {
        assert Fine(r.prog, pc, 1, strict);
        assert prog[1..|r.prog|] == r.prog[1..];
        Carry(r.prog, prog, 1, 0, pc, strict);
      }
    }
  }
}
