// src/regex/regex.c: that compiling keeps the meaning of a pattern.

/** Patterns as trees, and the programs compiled from them. */
module RegexGrammar {
  import opened RegexText
  import opened RegexCompiler
  import opened RegexMeaning
  import opened RegexRepeats

  /** A pattern: one request, a group with its number, a repeat, nothing, one thing behind another, or one of two.
      Each says where its text ends. */
  datatype Tree =
    | Leaf(inst: Inst, end: nat)
    | Group(g: nat, body: Tree, end: nat)
    | Many(atom: Tree, m: nat, n: int, end: nat)
    | Empty(end: nat)
    | Then(first: Tree, rest: Tree)
    | Either(first: Tree, rest: Tree)

  function End(t: Tree): nat {
    match t
    case Leaf(_, end) => end
    case Group(_, _, end) => end
    case Many(_, _, _, end) => end
    case Empty(end) => end
    case Then(_, rest) => End(rest)
    case Either(_, rest) => End(rest)
  }

  function Groups(t: Tree): nat {
    match t
    case Leaf(_, _) => 0
    case Group(_, body, _) => 1 + Groups(body)
    case Many(atom, _, _, _) => Groups(atom)
    case Empty(_) => 0
    case Then(first, rest) => Groups(first) + Groups(rest)
    case Either(first, rest) => Groups(first) + Groups(rest)
  }

  /** What the pattern allows. */
  function Meaning(t: Tree): Re {
    match t
    case Leaf(inst, _) => One(inst)
    case Group(g, body, _) => Cat(One(Save(2 * g)), Cat(Meaning(body), One(Save(2 * g + 1))))
    case Many(atom, m, n, _) => Rep(Meaning(atom), m, n)
    case Empty(_) => Nil
    case Then(first, rest) => Cat(Meaning(first), Meaning(rest))
    case Either(first, rest) => Or(Meaning(first), Meaning(rest))
  }

  // ---- how a tree is written

  /** The end of a branch. */
  predicate Stops(p: string, i: nat, ere: bool) {
    || i >= |p|
    || (ere && (p[i] == '|' || p[i] == ')'))
    || (!ere && p[i] == '\\' && At(p, i + 1) == ')')
  }

  /** A bracket expression, whose members are not represented. */
  predicate BracketAt(p: string, i: nat, end: nat) { i < |p| && p[i] == '[' && Bracket(p, i + 1) == Ok(end) }

  /** One request.  In basic expressions a caret is an anchor at the start only, and a dollar at the end. */
  predicate LeafAt(p: string, i: nat, inst: Inst, end: nat, ere: bool, first: bool) {
    i < |p| && !Stops(p, i, ere) &&
    var c, d := p[i], At(p, i + 1);
    if c == '[' then inst == Set(i) && BracketAt(p, i, end)
    else if c == '.' then inst == Any && end == i + 1
    else if c == '^' && (ere || first) then inst == Bol && end == i + 1
    else if c == '$' && (ere || Stops(p, i + 1, false)) then inst == Eol && end == i + 1
    else if c == '\\' then
      && i + 1 < |p| && end == i + 2
      && if ere then inst == Char(d)
         else d != '(' && inst == if '1' <= d <= '9' then Backref(d as nat - '0' as nat) else Char(d)
    else inst == Char(c) && end == i + 1 && (ere ==> c !in "(*+?{")
  }

  /** A repeat operator and the counts it allows. */
  predicate RepeatAt(p: string, i: nat, ere: bool, m: nat, n: int, end: nat) {
    i < |p| && Repeats(p, i, ere) &&
    var c := p[i];
    if c == '*' then m == 0 && n == -1 && end == i + 1
    else if c == '+' then m == 1 && n == -1 && end == i + 1
    else if c == '?' then m == 0 && n == 1 && end == i + 1
    else
      var from := if ere then i + 1 else i + 2;
      && from <= |p| && Bounds(p, from).Ok?
      && var b := Bounds(p, from).value;
         && m == b.m && n == b.n
         && if ere then At(p, b.pos) == '}' && end == b.pos + 1
            else At(p, b.pos) == '\\' && At(p, b.pos + 1) == '}' && end == b.pos + 2
  }

  predicate ItemAt(p: string, i: nat, t: Tree, g: nat, ere: bool, first: bool)
    decreases t, 0
  {
    match t
    case Leaf(inst, end) => LeafAt(p, i, inst, end, ere, first)
    case Group(k, body, end) =>
      && k == g
      && (if ere then At(p, i) == '(' && AltAt(p, i + 1, body, g + 1)
          else At(p, i) == '\\' && At(p, i + 1) == '(' && BranchAt(p, i + 2, body, g + 1, false, true))
      && (if ere then At(p, End(body)) == ')' && end == End(body) + 1
          else At(p, End(body)) == '\\' && At(p, End(body) + 1) == ')' && end == End(body) + 2)
    case Many(atom, m, n, end) => ItemAt(p, i, atom, g, ere, first) && RepeatAt(p, End(atom), ere, m, n, end)
    case _ => false
  }

  /** At the start of a basic expression a caret and a star take no repeat. */
  predicate Bare(p: string, i: nat, ere: bool, first: bool) { !ere && first && (At(p, i) == '^' || At(p, i) == '*') }

  predicate BranchAt(p: string, i: nat, t: Tree, g: nat, ere: bool, first: bool)
    decreases t, 1
  {
    match t
    case Empty(end) => end == i && Stops(p, i, ere)
    case Then(x, rest) =>
      && ItemAt(p, i, x, g, ere, first)
      && (if Bare(p, i, ere, first) then x.Leaf? else !Repeats(p, End(x), ere))
      && BranchAt(p, End(x), rest, g + Groups(x), ere, !ere && first && At(p, i) == '^')
    case _ => false
  }

  predicate AltAt(p: string, i: nat, t: Tree, g: nat)
    decreases t, 2
  {
    match t
    case Either(x, rest) =>
      BranchAt(p, i, x, g, true, true) && At(p, End(x)) == '|' && AltAt(p, End(x) + 1, rest, g + Groups(x))
    case _ => BranchAt(p, i, t, g, true, true) && At(p, End(t)) != '|'
  }

  /** A whole pattern. */
  predicate Written(p: string, t: Tree, ere: bool) {
    End(t) == |p| && if ere then AltAt(p, 0, t, 1) else BranchAt(p, 0, t, 1, false, true)
  }

  // ---- the state of the compiler

  /** From `ps` to `r` the compiler read t and emitted code for it. */
  ghost predicate Compiled(ps: Parser, r: Parser, t: Tree) {
    && r.pos == End(t) && r.ngroup == ps.ngroup + Groups(t)
    && |ps.prog| <= |r.prog| && Denotes(r.prog, |ps.prog|, |r.prog|, Meaning(t))
  }

  lemma {:induction false} LeafCompiled(ps: Parser, r: Parser, inst: Inst)
    requires r.prog == ps.prog + [inst] && r.ngroup == ps.ngroup
    requires !inst.Jmp? && !inst.Split? && !inst.Match?
    ensures Compiled(ps, r, Leaf(inst, r.pos))
  {
    OneDenotes(r.prog, |ps.prog|);
  }

  /** An instruction before code and one behind it. */
  lemma {:induction false} Enclosed(pre: seq<Inst>, a: Inst, body: seq<Inst>, b: Inst, re: Re)
    requires !a.Jmp? && !a.Split? && !a.Match? && !b.Jmp? && !b.Split? && !b.Match?
    requires |pre| < |body| && body[..|pre| + 1] == pre + [a] && Denotes(body, |pre| + 1, |body|, re)
    ensures var prog := body + [b]; Denotes(prog, |pre|, |prog|, Cat(One(a), Cat(re, One(b))))
  {
    var prog, lo := body + [b], |pre|;
    assert prog[lo] == body[..lo + 1][lo] == a;
    OneDenotes(prog, lo);
    OneDenotes(prog, |body|);
    assert prog[lo + 1..|body|] == body[lo + 1..|body|];
    hide Denotes;
    DenotesLonger(body, lo + 1, |body|, re, prog);
    CatDenotes(prog, lo + 1, |body|, |prog|, re, One(b));
    CatDenotes(prog, lo, lo + 1, |prog|, One(a), Cat(re, One(b)));
  }

  /** Code for one thing and then for another. */
  lemma {:induction false} ThenCompiled(ps: Parser, q: Parser, r: Parser, x: Tree, rest: Tree)
    requires Compiled(ps, q, x) && Compiled(q, r, rest) && r.prog[..|q.prog|] == q.prog
    ensures Compiled(ps, r, Then(x, rest))
  {
    var lo, mid := |ps.prog|, |q.prog|;
    hide Denotes;
    assert r.prog[lo..mid] == r.prog[..mid][lo..mid] == q.prog[lo..mid];
    DenotesLonger(q.prog, lo, mid, Meaning(x), r.prog);
    CatDenotes(r.prog, lo, mid, |r.prog|, Meaning(x), Meaning(rest));
  }

  // ---- repeats

  lemma {:induction false} RepeatCompiled(p: string, ere: bool, ps0: Parser, ps: Parser, t: Tree)
    returns (m: nat, n: int)
    requires Compiled(ps0, ps, t) && ps.pos < |p| && |ps.prog| <= MAX_PROG && Repeats(p, ps.pos, ere)
    requires Repeat1(p, ere, ps, |ps0.prog|).Ok?
    ensures var r := Repeat1(p, ere, ps, |ps0.prog|).value;
            RepeatAt(p, ps.pos, ere, m, n, r.pos) && Compiled(ps0, r, Many(t, m, n, r.pos))
  {
    var start, c, prog := |ps0.prog|, p[ps.pos], ps.prog;
    hide Denotes, Star, Plus, Optional, Interval;
    if c == '*' {
      m, n := 0, -1;
      StarCode(prog, start, Meaning(t), prog[..start], 0);
    } else if c == '+' {
      m, n := 1, -1;
      PlusCode(prog, start, Meaning(t));
    } else if c == '?' {
      m, n := 0, 1;
      OptionalCode(prog, start, Meaning(t), prog[..start], 0);
      AtMostOnce(Meaning(t));
      var more := prog[..start] + Optional(prog[start..], start, 0);
      DenotesSame(more, start, |more|, Or(Meaning(t), Nil), Rep(Meaning(t), 0, 1));
    } else {
      var b := Bounds(p, ps.pos + if ere then 1 else 2).value;
      m, n := b.m, b.n;
      BoundsAtLeast(p, ps.pos + if ere then 1 else 2);
      IntervalCode(prog, start, Meaning(t), b);
    }
  }

  lemma {:induction false} BoundsAtLeast(p: string, i: nat)
    requires i <= |p| && Bounds(p, i).Ok?
    ensures -1 <= Bounds(p, i).value.n
  {
  }

  lemma {:induction false} RepeatsCompiled(p: string, ere: bool, first: bool, ps0: Parser, ps: Parser, x: Tree)
    returns (t: Tree)
    requires Compiled(ps0, ps, x) && ps.pos <= |p| && |ps.prog| <= MAX_PROG
    requires ItemAt(p, ps0.pos, x, ps0.ngroup, ere, first) && ApplyRepeat(p, ere, ps, |ps0.prog|).Ok?
    ensures var r := ApplyRepeat(p, ere, ps, |ps0.prog|).value;
            && ItemAt(p, ps0.pos, t, ps0.ngroup, ere, first) && Compiled(ps0, r, t)
            && (r.pos == |p| || !Repeats(p, r.pos, ere))
    decreases |p| - ps.pos
  {
    hide Repeat1, Compiled;
    CompiledEnd(ps0, ps, x);
    if ps.pos == |p| || !Repeats(p, ps.pos, ere) {
      t := x;
    } else {
      var m, n := RepeatCompiled(p, ere, ps0, ps, x);
      var q := Repeat1(p, ere, ps, |ps0.prog|).value;
      CompiledEnd(ps0, q, Many(x, m, n, q.pos));
      t := RepeatsCompiled(p, ere, first, ps0, q, Many(x, m, n, q.pos));
    }
  }

  lemma {:induction false} CompiledEnd(ps: Parser, r: Parser, t: Tree)
    requires Compiled(ps, r, t)
    ensures r.pos == End(t) && r.ngroup == ps.ngroup + Groups(t) && |ps.prog| <= |r.prog|
  {
  }

  /** No repeat operator at the end of the text. */
  lemma {:induction false} NoRepeatAtEnd(p: string, i: nat, ere: bool)
    requires i >= |p|
    ensures !Repeats(p, i, ere)
  {
  }

  // ---- extended expressions

  lemma {:induction false} GroupCompiled(ps: Parser, q: Parser, b: Parser, r: Parser, body: Tree)
    requires q.prog == ps.prog + [Save(2 * ps.ngroup)] && q.ngroup == ps.ngroup + 1 && Compiled(q, b, body)
    requires b.prog[..|q.prog|] == q.prog && r.prog == b.prog + [Save(2 * ps.ngroup + 1)] && r.ngroup == b.ngroup
    ensures Compiled(ps, r, Group(ps.ngroup, body, r.pos))
  {
    Enclosed(ps.prog, Save(2 * ps.ngroup), b.prog, Save(2 * ps.ngroup + 1), Meaning(body));
    hide Denotes;
  }

  lemma {:induction false} EreAtomCompiled(p: string, ps: Parser) returns (t: Tree)
    requires ps.pos < |p| && |ps.prog| <= MAX_PROG && EreAtom(p, ps).Ok?
    requires !Stops(p, ps.pos, true) && !Repeats(p, ps.pos, true)
    ensures ItemAt(p, ps.pos, t, ps.ngroup, true, false) && Compiled(ps, EreAtom(p, ps).value, t)
    decreases |p| - ps.pos, 0
  {
    hide Compiled, EreAlt, Bracket;
    var i, r := ps.pos, EreAtom(p, ps).value;
    if p[i] == '(' {
      var g := ps.ngroup;
      var q := Emit(ps.(ngroup := g + 1), i + 1, Save(2 * g), false).value;
      var body := EreAltCompiled(p, q);
      var b := EreAlt(p, q).value;
      CompiledEnd(q, b, body);
      t := Group(g, body, r.pos);
      GroupCompiled(ps, q, b, r, body);
    } else {
      var inst := r.prog[|ps.prog|];
      t := Leaf(inst, r.pos);
      LeafCompiled(ps, r, inst);
    }
  }

  lemma {:induction false} EreBranchCompiled(p: string, ps: Parser, first: bool) returns (t: Tree)
    requires ps.pos <= |p| && |ps.prog| <= MAX_PROG && EreBranch(p, ps, first).Ok?
    requires first || ps.pos == |p| || !Repeats(p, ps.pos, true)
    ensures BranchAt(p, ps.pos, t, ps.ngroup, true, false) && Compiled(ps, EreBranch(p, ps, first).value, t)
    decreases |p| - ps.pos, 1
  {
    hide EreAtom, ApplyRepeat, Compiled, Denotes;
    if Stops(p, ps.pos, true) {
      t := Empty(ps.pos);
      EmptyCompiled(ps);
    } else {
      var x := EreAtomCompiled(p, ps);
      var a := EreAtom(p, ps).value;
      x := RepeatsCompiled(p, true, false, ps, a, x);
      var q := ApplyRepeat(p, true, a, |ps.prog|).value;
      CompiledEnd(ps, q, x);
      NoRepeatAtEnd(p, |p|, true);
      var rest := EreBranchCompiled(p, q, false);
      t := Then(x, rest);
      ThenCompiled(ps, q, EreBranch(p, q, false).value, x, rest);
    }
  }

  lemma {:induction false} EmptyCompiled(ps: Parser)
    ensures Compiled(ps, ps, Empty(ps.pos))
  {
    NilDenotes(ps.prog, |ps.prog|);
  }

  lemma {:induction false} EreAltCompiled(p: string, ps: Parser) returns (t: Tree)
    requires ps.pos <= |p| && |ps.prog| <= MAX_PROG && EreAlt(p, ps).Ok?
    ensures AltAt(p, ps.pos, t, ps.ngroup) && Compiled(ps, EreAlt(p, ps).value, t)
    decreases |p| - ps.pos, 2
  {
    hide EreAlt, EreBranch, Compiled, BranchAt;
    AltBegins(p, ps);
    var x := EreBranchCompiled(p, ps, true);
    var b := EreBranch(p, ps, true).value;
    CompiledEnd(ps, b, x);
    AnyFirst(p, ps.pos, x, ps.ngroup, false, true);
    if At(p, b.pos) != '|' {
      t := x;
      BranchIsNoEither(p, ps.pos, t, ps.ngroup);
    } else {
      var start, len := |ps.prog|, |b.prog| - |ps.prog|;
      var code := [Split(start + 1, start + len + 2)] + Reloc(b.prog[start..], 1) + [Jmp(0)];
      var q := b.(pos := b.pos + 1, prog := ps.prog + code);
      AltPatches(p, ps, b, q);
      var rest := EreAltCompiled(p, q);
      t := Either(x, rest);
      EitherCompiled(ps, b, q, EreAlt(p, q).value, x, rest);
    }
  }

  lemma {:induction false} AltBegins(p: string, ps: Parser)
    requires ps.pos <= |p| && |ps.prog| <= MAX_PROG && EreAlt(p, ps).Ok?
    ensures EreBranch(p, ps, true).Ok?
    ensures At(p, EreBranch(p, ps, true).value.pos) != '|' ==> EreAlt(p, ps) == EreBranch(p, ps, true)
  {
    hide EreBranch;
  }

  lemma {:induction false} AltPatches(p: string, ps: Parser, b: Parser, q: Parser)
    requires ps.pos <= |p| && |ps.prog| <= MAX_PROG && EreAlt(p, ps).Ok? && Ok(b) == EreBranch(p, ps, true)
    requires At(p, b.pos) == '|' && q.pos == b.pos + 1 && q.pos <= |p|
    requires var start, len := |ps.prog|, |b.prog| - |ps.prog|;
             0 <= len && |b.prog| + 1 < |q.prog| &&
             q == b.(pos := b.pos + 1,
                     prog := ps.prog + ([Split(start + 1, start + len + 2)] + Reloc(b.prog[start..], 1) + [Jmp(0)]))
    ensures |q.prog| <= MAX_PROG && EreAlt(p, q).Ok? &&
            var e := EreAlt(p, q).value;
            |b.prog| + 1 < |e.prog| && EreAlt(p, ps) == Ok(e.(prog := e.prog[|b.prog| + 1 := Jmp(|e.prog|)]))
  {
    hide EreBranch;
  }

  /** Extended expressions do not care where a branch begins. */
  lemma {:induction false} AnyFirst(p: string, i: nat, t: Tree, g: nat, a: bool, b: bool)
    requires BranchAt(p, i, t, g, true, a)
    ensures BranchAt(p, i, t, g, true, b)
  {
    if t.Then? { AnyFirstItem(p, i, t.first, g, a, b); }
  }

  lemma {:induction false} AnyFirstItem(p: string, i: nat, t: Tree, g: nat, a: bool, b: bool)
    requires ItemAt(p, i, t, g, true, a)
    ensures ItemAt(p, i, t, g, true, b)
  {
    if t.Many? { AnyFirstItem(p, i, t.atom, g, a, b); }
  }

  lemma {:induction false} BranchIsNoEither(p: string, i: nat, t: Tree, g: nat)
    requires BranchAt(p, i, t, g, true, true)
    ensures !t.Either?
  {
  }

  lemma {:induction false} EitherCompiled(ps: Parser, b: Parser, q: Parser, r: Parser, x: Tree, rest: Tree)
    requires Compiled(ps, b, x) && Compiled(q, r, rest) && q.ngroup == b.ngroup
    requires var start, len := |ps.prog|, |b.prog| - |ps.prog|;
             q.prog == ps.prog + ([Split(start + 1, start + len + 2)] + Reloc(b.prog[start..], 1) + [Jmp(0)])
    requires r.prog[..|q.prog|] == q.prog
    ensures var done := r.(prog := r.prog[|b.prog| + 1 := Jmp(|r.prog|)]); Compiled(ps, done, Either(x, rest))
  {
    var start, len := |ps.prog|, |b.prog| - |ps.prog|;
    var mid := |b.prog| + 1;
    var prog := r.prog[mid := Jmp(|r.prog|)];
    hide Denotes;
    forall k | 0 <= k < mid ensures prog[k] == q.prog[k] { assert r.prog[..|q.prog|][k] == q.prog[k]; }
    assert prog[start + 1..mid] == Reloc(b.prog[start..], 1);
    Placed(b.prog, start, Meaning(x), prog, 1);
    assert prog[mid + 1..|prog|] == r.prog[mid + 1..|prog|];
    DenotesLonger(r.prog, mid + 1, |r.prog|, Meaning(rest), prog);
    OrDenotes(prog, start, mid, |prog|, Meaning(x), Meaning(rest));
  }

  // ---- basic expressions

  lemma {:induction false} BreLeaf(p: string, ps: Parser, first: bool) returns (inst: Inst)
    requires ps.pos < |p| && |ps.prog| <= MAX_PROG && BreAtom(p, ps, first).Ok? && !Stops(p, ps.pos, false)
    requires !(p[ps.pos] == '\\' && At(p, ps.pos + 1) == '(')
    ensures var r := BreAtom(p, ps, first).value;
            && r.prog == ps.prog + [inst] && r.ngroup == ps.ngroup && !inst.Jmp? && !inst.Split? && !inst.Match?
            && LeafAt(p, ps.pos, inst, r.pos, false, first)
  {
    hide BreBranch, Bracket;
    inst := BreAtom(p, ps, first).value.prog[|ps.prog|];
  }

  lemma {:induction false} BreGroup(p: string, ps: Parser, first: bool)
    requires ps.pos < |p| && |ps.prog| <= MAX_PROG && BreAtom(p, ps, first).Ok?
    requires p[ps.pos] == '\\' && At(p, ps.pos + 1) == '('
    ensures var g := ps.ngroup;
            var q := ps.(ngroup := g + 1, pos := ps.pos + 2, prog := ps.prog + [Save(2 * g)], single := false);
            && q.pos <= |p| && |q.prog| <= MAX_PROG && BreBranch(p, q, true).Ok?
            && var b, r := BreBranch(p, q, true).value, BreAtom(p, ps, first).value;
               && At(p, b.pos) == '\\' && At(p, b.pos + 1) == ')' && r.pos == b.pos + 2
               && r.prog == b.prog + [Save(2 * g + 1)] && r.ngroup == b.ngroup && Extends(p, q, b)
  {
    hide BreBranch, Bracket;
  }

  lemma {:induction false} BreAtomCompiled(p: string, ps: Parser, first: bool) returns (t: Tree)
    requires ps.pos < |p| && |ps.prog| <= MAX_PROG && BreAtom(p, ps, first).Ok? && !Stops(p, ps.pos, false)
    ensures ItemAt(p, ps.pos, t, ps.ngroup, false, first) && Compiled(ps, BreAtom(p, ps, first).value, t)
    ensures At(p, ps.pos) == '^' || At(p, ps.pos) == '*' ==> t.Leaf?
    decreases |p| - ps.pos, 0
  {
    hide Compiled, BreAtom, BreBranch, LeafAt;
    var i, r := ps.pos, BreAtom(p, ps, first).value;
    if p[i] == '\\' && At(p, i + 1) == '(' {
      var g := ps.ngroup;
      BreGroup(p, ps, first);
      var q := ps.(ngroup := g + 1, pos := i + 2, prog := ps.prog + [Save(2 * g)], single := false);
      var body := BreBranchCompiled(p, q, true);
      var b := BreBranch(p, q, true).value;
      CompiledEnd(q, b, body);
      t := Group(g, body, r.pos);
      GroupCompiled(ps, q, b, r, body);
    } else {
      var inst := BreLeaf(p, ps, first);
      t := Leaf(inst, r.pos);
      LeafCompiled(ps, r, inst);
    }
  }

  lemma {:induction false} BreBranchCompiled(p: string, ps: Parser, first: bool) returns (t: Tree)
    requires ps.pos <= |p| && |ps.prog| <= MAX_PROG && BreBranch(p, ps, first).Ok?
    ensures BranchAt(p, ps.pos, t, ps.ngroup, false, first) && Compiled(ps, BreBranch(p, ps, first).value, t)
    decreases |p| - ps.pos, 1
  {
    hide BreAtom, ApplyRepeat, Compiled, Denotes, ItemAt;
    if Stops(p, ps.pos, false) {
      t := Empty(ps.pos);
      EmptyCompiled(ps);
    } else {
      var c := p[ps.pos];
      var x := BreAtomCompiled(p, ps, first);
      var a := BreAtom(p, ps, first).value;
      var q, again := a, first && c == '^';
      if !Bare(p, ps.pos, false, first) {
        x := RepeatsCompiled(p, false, first, ps, a, x);
        q := ApplyRepeat(p, false, a, |ps.prog|).value;
        NoRepeatAtEnd(p, |p|, false);
      }
      CompiledEnd(ps, q, x);
      var rest := BreBranchCompiled(p, q, again);
      t := Then(x, rest);
      ThenCompiled(ps, q, BreBranch(p, q, again).value, x, rest);
    }
  }

  // ---- whole patterns

  /** Every pattern that compiles is written as a tree, and the program asks for exactly what the tree allows. */
  lemma {:induction false} CompiledMeans(p: string, ere: bool) returns (t: Tree)
    requires RegComp(p, ere).Ok?
    ensures Written(p, t, ere)
    ensures var prog := RegComp(p, ere).value.prog;
            |prog| > 0 && Denotes(prog, 0, |prog| - 1, Cat(One(Save(0)), Cat(Meaning(t), One(Save(1)))))
  {
    hide Compiled, Denotes, EreAlt, BreBranch, AltAt, BranchAt;
    var ps := Parser(0, [Save(0)], 1, {}, false, true);
    var r := if ere then EreAlt(p, ps).value else BreBranch(p, ps, true).value;
    if ere { t := EreAltCompiled(p, ps); } else { t := BreBranchCompiled(p, ps, true); }
    CompiledEnd(ps, r, t);
    Finished(ps, r, t);
    var prog := RegComp(p, ere).value.prog;
    assert prog == r.prog + [Save(1)] + [Match];
  }

  lemma {:induction false} Finished(ps: Parser, r: Parser, t: Tree)
    requires ps.prog == [Save(0)] && Compiled(ps, r, t) && r.prog[..1] == [Save(0)]
    ensures var prog := r.prog + [Save(1)] + [Match];
            Denotes(prog, 0, |prog| - 1, Cat(One(Save(0)), Cat(Meaning(t), One(Save(1)))))
  {
    hide Denotes;
    var re := Cat(One(Save(0)), Cat(Meaning(t), One(Save(1))));
    assert [] + [Save(0)] == [Save(0)];
    Enclosed([], Save(0), r.prog, Save(1), Meaning(t));
    var prog, most := r.prog + [Save(1)] + [Match], r.prog + [Save(1)];
    assert prog[0..|most|] == most[0..|most|];
    DenotesLonger(most, 0, |most|, re, prog);
  }
}
