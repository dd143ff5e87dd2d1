// fuzz/fuzz_regex.c and src/regex/regex.c side by side: where the filter and the compiler agree.

/** The filter's scan and the compiler's parse, side by side. */
module RegexAgreement {
  import opened Ascii
  import opened RegexText
  import opened RegexFilter
  import opened RegexCompiler

  lemma {:induction false} ClassCloses(p: string, i: nat)
    requires i <= |p|
    requires var q := FindChar(p, i, ':'); q < |p| && At(p, q + 1) == ']'
    ensures FindClose(p, i, ':') == FindChar(p, i, ':')
    decreases |p| - i
  {
    if p[i] != ':' { ClassCloses(p, i + 1); }
  }

  /** A class, collating symbol or equivalence class the compiler takes is stepped over by both. */
  lemma {:induction false} ClassAgrees(p: string, i: nat, first: bool)
    requires i < |p| && Opens(p, i) && Members(p, i, first).Ok?
    ensures var q := FindClose(p, i + 2, p[i + 1]);
            q < |p| && Members(p, i, first) == Members(p, q + 2, false) &&
            MembersEnd(p, i, first) == MembersEnd(p, q + 2, false)
  {
    hide FindClose, FindChar, ClassName;
    if p[i + 1] == ':' { ClassCloses(p, i + 2); }
  }

  /** Where the compiler ends a bracket expression, so does a scan that steps over ranges. */
  lemma {:induction false} MembersAgree(p: string, i: nat, first: bool)
    requires i <= |p| && Members(p, i, first).Ok?
    ensures MembersEnd(p, i, first) == Members(p, i, first).value - 1
    decreases |p| - i
  {
    hide FindChar, FindClose, ClassName;
    if p[i] == ']' && !first {
    } else if Opens(p, i) {
      ClassAgrees(p, i, first);
      hide Members, MembersEnd;
      MembersAgree(p, FindClose(p, i + 2, p[i + 1]) + 2, false);
    } else if At(p, i + 1) == '-' && i + 2 < |p| && p[i + 2] != ']' {
      MembersAgree(p, i + 3, false);
    } else {
      MembersAgree(p, i + 1, false);
    }
  }

  lemma {:induction false} BracketAgrees(p: string, i: nat)
    requires i <= |p| && Bracket(p, i).Ok?
    ensures BracketStop(p, i, true) == Bracket(p, i).value - 1
  {
    hide Members, MembersEnd;
    MembersAgree(p, if At(p, i) == '^' then i + 1 else i, true);
  }

  lemma {:induction false} NumberSkips(p: string, i: nat, acc: nat)
    requires i <= |p| && Number(p, i, acc).Ok?
    ensures SkipInterval(p, i) == SkipInterval(p, Number(p, i, acc).value.1)
    decreases |p| - i
  {
    if i < |p| && Digit(p[i]) {
      NumberSkips(p, i + 1, acc * 10 + (p[i] as nat - '0' as nat));
    }
  }

  lemma {:induction false} BoundsSkip(p: string, i: nat)
    requires i <= |p| && Bounds(p, i).Ok?
    ensures SkipInterval(p, i) == SkipInterval(p, Bounds(p, i).value.pos)
  {
    NumberSkips(p, i, 0);
    var j := Number(p, i, 0).value.1;
    if At(p, j) == ',' && Digit(At(p, j + 1)) { NumberSkips(p, j + 1, 0); }
  }

  /** The filter, from where the parser stands, with nothing amiss so far. */
  ghost predicate Accepts(p: string, ere: bool, ps: Parser, prev: bool)
    requires ps.pos <= |p|
  {
    ps.plain && Scan(p, ps.pos, ere, prev, true)
  }

  lemma {:induction false} RepeatAgrees(p: string, ere: bool, ps: Parser, start: nat)
    requires ps.pos < |p| && start <= |ps.prog| <= MAX_PROG && Repeats(p, ps.pos, ere)
    requires Repeat1(p, ere, ps, start).Ok?
    ensures Accepts(p, ere, ps, ps.single) <==> Accepts(p, ere, Repeat1(p, ere, ps, start).value, false)
  {
    hide Number, Bounds, Wrap, Fits, Star, Plus, Optional, Interval, Oversized, BracketStop, Reloc;
    var c := p[ps.pos];
    if c != '*' && c != '+' && c != '?' {
      var i: nat := ps.pos + if ere then 1 else 2;
      BoundsSkip(p, i);
      var b := Bounds(p, i).value;
      assert SkipInterval(p, i) == b.pos + if ere then 1 else 2;
    }
  }

  lemma {:induction false} ApplyRepeatAgrees(p: string, ere: bool, ps: Parser, start: nat)
    requires ps.pos <= |p| && start <= |ps.prog| <= MAX_PROG && ApplyRepeat(p, ere, ps, start).Ok?
    ensures var r := ApplyRepeat(p, ere, ps, start).value;
            (Accepts(p, ere, ps, ps.single) <==> Accepts(p, ere, r, r.single))
            && (r.pos == |p| || !Repeats(p, r.pos, ere))
    decreases |p| - ps.pos
  {
    hide Repeat1, Scan;
    if ps.pos < |p| && Repeats(p, ps.pos, ere) {
      RepeatAgrees(p, ere, ps, start);
      ApplyRepeatAgrees(p, ere, Repeat1(p, ere, ps, start).value, start);
    }
  }

  /** Extended expressions: the filter accepts exactly the plain ones. */
  lemma {:induction false} EreAtomAgrees(p: string, ps: Parser, prev: bool)
    requires ps.pos < |p| && |ps.prog| <= MAX_PROG && EreAtom(p, ps).Ok?
    requires !Repeats(p, ps.pos, true) && p[ps.pos] != '|' && p[ps.pos] != ')'
    ensures var r := EreAtom(p, ps).value; Accepts(p, true, ps, prev) <==> Accepts(p, true, r, r.single)
    decreases |p| - ps.pos, 0
  {
    hide FindClose, FindChar, Members, Bracket, BracketStop, EreAlt;
    var c := p[ps.pos];
    if c == '(' {
      var q := Emit(ps.(ngroup := ps.ngroup + 1), ps.pos + 1, Save(2 * ps.ngroup), false).value;
      EreAltAgrees(p, q, false);
    } else if c == '[' {
      BracketAgrees(p, ps.pos + 1);
    }
  }

  lemma {:induction false} EreBranchAgrees(p: string, ps: Parser, first: bool, prev: bool)
    requires ps.pos <= |p| && |ps.prog| <= MAX_PROG && EreBranch(p, ps, first).Ok?
    requires first || ps.pos == |p| || !Repeats(p, ps.pos, true)
    ensures Accepts(p, true, ps, prev) <==> Accepts(p, true, EreBranch(p, ps, first).value, false)
    decreases |p| - ps.pos, 1
  {
    hide EreAtom, ApplyRepeat;
    var c := At(p, ps.pos);
    if ps.pos < |p| && c != '|' && c != ')' {
      var a := EreAtom(p, ps).value;
      EreAtomAgrees(p, ps, prev);
      ApplyRepeatAgrees(p, true, a, |ps.prog|);
      var q := ApplyRepeat(p, true, a, |ps.prog|).value;
      EreBranchAgrees(p, q, false, q.single);
    }
  }

  lemma {:induction false} EreAltAgrees(p: string, ps: Parser, prev: bool)
    requires ps.pos <= |p| && |ps.prog| <= MAX_PROG && EreAlt(p, ps).Ok?
    ensures Accepts(p, true, ps, prev) <==> Accepts(p, true, EreAlt(p, ps).value, false)
    decreases |p| - ps.pos, 2
  {
    hide EreBranch, Reloc, BracketStop, SkipInterval;
    EreBranchAgrees(p, ps, true, prev);
    var start, b := |ps.prog|, EreBranch(p, ps, true).value;
    if At(p, b.pos) == '|' {
      var len := |b.prog| - start;
      var code := [Split(start + 1, start + len + 2)] + Reloc(b.prog[start..], 1) + [Jmp(0)];
      EreAltAgrees(p, b.(pos := b.pos + 1, prog := ps.prog + code), false);
    }
  }

  // ---- basic expressions

  /** What stands before a position of a basic expression: the start of a branch, a leading '*', or an item
      that is one character's worth or not. */
  datatype Place = First | Fresh | After(single: bool)

  /** A scan that reads a basic expression as the compiler does. */
  predicate BasicScan(p: string, i: nat, place: Place)
    requires i <= |p|
    decreases |p| - i
  {
    if i == |p| then true else
    var c, d := p[i], At(p, i + 1);
    if c == '\\' then
      if i + 1 == |p| then false
      else if d == '(' then BasicScan(p, i + 2, First)
      else if d == ')' then BasicScan(p, i + 2, After(false))
      else if d == '{' && place.After? then place.single && BasicScan(p, SkipInterval(p, i + 2), After(false))
      else BasicScan(p, i + 2, After(!('1' <= d <= '9')))
    else if c == '[' then
      var q := BracketStop(p, i + 1, true);
      q < |p| && BasicScan(p, q + 1, After(true))
    else if c == '*' && place.After? then place.single && BasicScan(p, i + 1, After(false))
    else if c == '*' && place.First? then BasicScan(p, i + 1, Fresh)
    else if c == '^' && place.First? then BasicScan(p, i + 1, First)
    else if c == '$' && (i + 1 == |p| || (d == '\\' && At(p, i + 2) == ')')) then BasicScan(p, i + 1, After(false))
    else BasicScan(p, i + 1, After(true))
  }

  ghost predicate Takes(p: string, ps: Parser, place: Place)
    requires ps.pos <= |p|
  {
    ps.plain && BasicScan(p, ps.pos, place)
  }

  lemma {:induction false} BasicRepeatAgrees(p: string, ps: Parser, start: nat)
    requires ps.pos < |p| && start <= |ps.prog| <= MAX_PROG && Repeats(p, ps.pos, false)
    requires Repeat1(p, false, ps, start).Ok?
    ensures Takes(p, ps, After(ps.single)) <==> Takes(p, Repeat1(p, false, ps, start).value, After(false))
  {
    hide Number, Bounds, Wrap, Fits, Star, Plus, Optional, Interval, Oversized, BracketStop, Reloc;
    if p[ps.pos] != '*' {
      BoundsSkip(p, ps.pos + 2);
      assert SkipInterval(p, ps.pos + 2) == Bounds(p, ps.pos + 2).value.pos + 2;
    }
  }

  lemma {:induction false} BasicRepeatsAgree(p: string, ps: Parser, start: nat)
    requires ps.pos <= |p| && start <= |ps.prog| <= MAX_PROG && ApplyRepeat(p, false, ps, start).Ok?
    ensures var r := ApplyRepeat(p, false, ps, start).value;
            (Takes(p, ps, After(ps.single)) <==> Takes(p, r, After(r.single)))
            && (r.pos == |p| || !Repeats(p, r.pos, false))
    decreases |p| - ps.pos
  {
    hide Repeat1, BasicScan;
    if ps.pos < |p| && Repeats(p, ps.pos, false) {
      BasicRepeatAgrees(p, ps, start);
      BasicRepeatsAgree(p, Repeat1(p, false, ps, start).value, start);
    }
  }

  /** The place an atom leaves. */
  function Left(c: char, place: Place, single: bool): Place {
    if place.First? && c == '^' then First else if place.First? && c == '*' then Fresh else After(single)
  }

  lemma {:induction false} BreAtomAgrees(p: string, ps: Parser, place: Place)
    requires ps.pos < |p| && |ps.prog| <= MAX_PROG && BreAtom(p, ps, place.First?).Ok?
    requires !(p[ps.pos] == '\\' && At(p, ps.pos + 1) == ')') && (place.After? ==> !Repeats(p, ps.pos, false))
    ensures var r := BreAtom(p, ps, place.First?).value;
            Takes(p, ps, place) <==> Takes(p, r, Left(p[ps.pos], place, r.single))
    decreases |p| - ps.pos, 0
  {
    hide FindClose, FindChar, Members, Bracket, BracketStop, BreBranch;
    var i := ps.pos;
    if p[i] == '\\' && At(p, i + 1) == '(' {
      var q := Emit(ps.(ngroup := ps.ngroup + 1), i + 2, Save(2 * ps.ngroup), false).value;
      BreBranchAgrees(p, q, First);
    } else if p[i] == '[' {
      BracketAgrees(p, i + 1);
    }
  }

  lemma {:induction false} BreBranchAgrees(p: string, ps: Parser, place: Place)
    requires ps.pos <= |p| && |ps.prog| <= MAX_PROG && BreBranch(p, ps, place.First?).Ok?
    requires place.After? ==> ps.pos == |p| || !Repeats(p, ps.pos, false)
    ensures Takes(p, ps, place) <==> Takes(p, BreBranch(p, ps, place.First?).value, After(false))
    decreases |p| - ps.pos, 1
  {
    hide BreAtom, ApplyRepeat;
    var c, first := At(p, ps.pos), place.First?;
    if ps.pos == |p| || (c == '\\' && At(p, ps.pos + 1) == ')') {
    } else {
      BreAtomAgrees(p, ps, place);
      hide BasicScan;
      var a := BreAtom(p, ps, first).value;
      if first && (c == '^' || c == '*') {
        BreBranchAgrees(p, a, Left(c, place, a.single));
      } else {
        BasicRepeatsAgree(p, a, |ps.prog|);
        var q := ApplyRepeat(p, false, a, |ps.prog|).value;
        BreBranchAgrees(p, q, After(q.single));
      }
    }
  }

  /** On basic expressions the filter's reading, ranges aside, accepts no more than that scan. */
  lemma {:induction false} BasicAcceptsMore(p: string, i: nat, prev: bool, place: Place)
    requires i <= |p| && Scan(p, i, false, prev, true)
    requires match place case First => !prev case Fresh => false case After(single) => prev ==> single
    ensures BasicScan(p, i, place)
    decreases |p| - i
  {
    hide BracketStop, SkipInterval;
    if i < |p| {
      var c, d := p[i], At(p, i + 1);
      if c == '\\' {
        if d == '(' { BasicAcceptsMore(p, i + 2, false, First); }
        else if d == '{' { BasicAcceptsMore(p, SkipInterval(p, i + 2), false, After(false)); }
        else if d == ')' || '1' <= d <= '9' { BasicAcceptsMore(p, i + 2, false, After(false)); }
        else { BasicAcceptsMore(p, i + 2, true, After(true)); }
      } else if c == '[' {
        BasicAcceptsMore(p, BracketStop(p, i + 1, true) + 1, true, After(true));
      } else if c == '*' {
        BasicAcceptsMore(p, i + 1, false, After(false));
      } else if c == '^' && place.First? {
        BasicAcceptsMore(p, i + 1, false, First);
      } else if c == '^' || c == '$' || c == '+' || c == '?' {
        BasicAcceptsMore(p, i + 1, false, After(!(c == '$' && (i + 1 == |p| || (d == '\\' && At(p, i + 2) == ')')))));
      } else {
        BasicAcceptsMore(p, i + 1, true, After(true));
      }
    }
  }

  // ---- the filter's verdict

  /** The exact test, on the text alone. */
  predicate Exact(p: string, ere: bool) { if ere then Scan(p, 0, true, false, true) else BasicScan(p, 0, First) }

  /** In every pattern that compiles, each repeat is on a one-character atom exactly when the exact test says so. */
  lemma {:induction false} PlainExactly(p: string, ere: bool)
    requires RegComp(p, ere).Ok?
    ensures RegComp(p, ere).value.plain <==> Exact(p, ere)
  {
    hide EreAlt, BreBranch;
    var ps := Parser(0, [Save(0)], 1, {}, false, true);
    if ere { EreAltAgrees(p, ps, false); } else { BreBranchAgrees(p, ps, First); }
  }

  /** The filter never accepts a wrong pattern but for where it takes a bracket expression to end, and it is right
      on every extended pattern whose brackets it reads as the compiler does.  On every pattern that compiles it is
      right exactly when it agrees with the exact test. */
  lemma {:induction false} FilterAgrees(p: string, ere: bool)
    requires RegComp(p, ere).Ok?
    ensures Scan(p, 0, ere, false, true) ==> RegComp(p, ere).value.plain
    ensures ere ==> (Scan(p, 0, ere, false, true) <==> RegComp(p, ere).value.plain)
    ensures (Scan(p, 0, ere, false, false) <==> RegComp(p, ere).value.plain)
            <==> (Scan(p, 0, ere, false, false) <==> Exact(p, ere))
  {
    PlainExactly(p, ere);
    if !ere && Scan(p, 0, ere, false, true) { BasicAcceptsMore(p, 0, false, First); }
  }

  /** No dash is followed by what opens a class: then the filter reads every bracket as the compiler does. */
  predicate RangesEndPlainly(p: string) {
    forall i :: 0 <= i < |p| && p[i] == '-' ==> !Opens(p, i + 1)
  }

  lemma {:induction false} StopsAgree(p: string, i: nat, first: bool)
    requires i <= |p| && RangesEndPlainly(p)
    ensures MembersEnd(p, i, first) == BracketEnd(p, if first && At(p, i) == ']' then i + 1 else i)
    decreases |p| - i
  {
    hide FindClose, RangesEndPlainly;
    if i == |p| || (p[i] == ']' && !first) {
    } else if Opens(p, i) {
      var q := FindClose(p, i + 2, p[i + 1]);
      if q < |p| { StopsAgree(p, q + 2, false); }
    } else if At(p, i + 1) == '-' && i + 2 < |p| && p[i + 2] != ']' {
      DashIsPlain(p, i + 1);
      StopsAgree(p, i + 3, false);
    } else {
      StopsAgree(p, i + 1, false);
    }
  }

  lemma {:induction false} DashIsPlain(p: string, i: nat)
    requires i + 1 < |p| && p[i] == '-' && p[i + 1] != ']' && RangesEndPlainly(p)
    ensures !Opens(p, i + 1) && BracketEnd(p, i) == BracketEnd(p, i + 2)
  {
    assert BracketEnd(p, i) == BracketEnd(p, i + 1);
  }

  lemma {:induction false} ScansAgree(p: string, i: nat, ere: bool, prev: bool)
    requires i <= |p| && RangesEndPlainly(p)
    ensures Scan(p, i, ere, prev, false) == Scan(p, i, ere, prev, true)
    decreases |p| - i
  {
    hide BracketStop, SkipInterval, RangesEndPlainly;
    if i < |p| {
      var c, d := p[i], At(p, i + 1);
      if c == '\\' {
        if i + 1 < |p| {
          ScansAgree(p, i + 2, ere, false);
          ScansAgree(p, i + 2, ere, true);
          ScansAgree(p, SkipInterval(p, i + 2), ere, false);
        }
      } else if c == '[' {
        SameStop(p, i + 1);
        var q := BracketStop(p, i + 1, true);
        if q < |p| { ScansAgree(p, q + 1, ere, true); }
      } else {
        ScansAgree(p, i + 1, ere, false);
        ScansAgree(p, i + 1, ere, true);
        ScansAgree(p, SkipInterval(p, i + 1), ere, false);
      }
    }
  }

  lemma {:induction false} SameStop(p: string, i: nat)
    requires i <= |p| && RangesEndPlainly(p)
    ensures BracketStop(p, i, false) == BracketStop(p, i, true)
  {
    hide MembersEnd, BracketEnd, RangesEndPlainly;
    StopsAgree(p, if At(p, i) == '^' then i + 1 else i, true);
  }

  /** Basic expressions the filter turns down although no repeat applies to anything: a leading '*', and a '+'
      or '?' where the filter sees no atom. */
  lemma {:induction false} OverRejected(p: string)
    requires p in ["*", "+", "?", "^+"]
    ensures RegComp(p, false).Ok? && Exact(p, false) && !Scan(p, 0, false, false, false)
  {
    if p == "^+" {
      var ps := Parser(0, [Save(0)], 1, {}, false, true);
      var a := Parser(1, [Save(0), Bol], 1, {}, false, true);
      var b := Parser(2, [Save(0), Bol, Char('+')], 1, {}, true, true);
      assert ps.prog + [Bol] == a.prog && a.prog + [Char('+')] == b.prog;
      assert BreAtom(p, a, true) == Ok(b) && BreBranch(p, b, false) == Ok(b);
      assert BreBranch(p, a, true) == Ok(b);
      assert BreBranch(p, ps, true) == Ok(b);
    }
  }
}
