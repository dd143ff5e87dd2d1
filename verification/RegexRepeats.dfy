// src/regex/regex.c: what the code emitted for a repeat matches.

/** The repeat operators, as emitted and as meant. */
module RegexRepeats {
  import opened RegexCompiler
  import opened RegexMeaning

  // ---- counting

  ghost predicate Same(a: Re, b: Re) { forall w :: Means(a, w) <==> Means(b, w) }

  lemma {:induction false} DenotesSame(prog: seq<Inst>, lo: nat, hi: nat, a: Re, b: Re)
    requires Denotes(prog, lo, hi, a) && Same(a, b)
    ensures Denotes(prog, lo, hi, b)
  {
  }

  lemma {:induction false} TimesNone(a: Re, w: seq<Inst>)
    ensures Times(a, 0, w) <==> w == []
  {
  }

  /** j times and k times more are j + k times. */
  lemma {:induction false} TimesAdd(a: Re, j: nat, k: nat, u: seq<Inst>, v: seq<Inst>)
    requires Times(a, j, u) && Times(a, k, v)
    ensures Times(a, j + k, u + v)
    decreases j
  {
    hide Times, Means;
    if j == 0 {
      TimesNone(a, u);
      assert u + v == v;
    } else {
      var i := TimesFirst(a, j, u);
      var x, y := u[..i], u[i..];
      assert u == x + y;
      TimesAdd(a, j - 1, k, y, v);
      TimesMore(a, j - 1 + k, x, y + v);
      assert x + (y + v) == u + v;
    }
  }

  lemma {:induction false} TimesCut(a: Re, j: nat, k: nat, w: seq<Inst>) returns (i: nat)
    requires Times(a, j + k, w)
    ensures i <= |w| && Times(a, j, w[..i]) && Times(a, k, w[i..])
    decreases j
  {
    hide Times, Means;
    if j == 0 {
      i := 0;
      TimesNone(a, w[..0]);
      assert w[0..] == w;
    } else {
      var f := TimesFirst(a, j + k, w);
      var r := w[f..];
      var g := TimesCut(a, j - 1, k, r);
      i := f + g;
      TimesMore(a, j - 1, w[..f], r[..g]);
      assert w[..i] == w[..f] + r[..g] && w[i..] == r[g..];
    }
  }

  lemma {:induction false} TimesOne(a: Re, w: seq<Inst>)
    ensures Times(a, 1, w) <==> Means(a, w)
  {
    hide Times, Means;
    if Times(a, 1, w) {
      var i := TimesFirst(a, 1, w);
      TimesNone(a, w[i..]);
      assert w[..i] == w;
    }
    if Means(a, w) {
      TimesNone(a, []);
      TimesMore(a, 0, w, []);
      assert w + [] == w;
    }
  }

  lemma {:induction false} CatIs(a: Re, b: Re, u: seq<Inst>, v: seq<Inst>)
    requires Means(a, u) && Means(b, v)
    ensures Means(Cat(a, b), u + v)
  {
    var w := u + v;
    assert w[..|u|] == u && w[|u|..] == v;
  }

  lemma {:induction false} CatOf(a: Re, b: Re, w: seq<Inst>) returns (i: nat)
    requires Means(Cat(a, b), w)
    ensures i <= |w| && Means(a, w[..i]) && Means(b, w[i..])
  {
    i :| 0 <= i <= |w| && Means(a, w[..i]) && Means(b, w[i..]);
  }

  /** m times and then up to k times, or any number, more. */
  lemma {:induction false} RepAdds(a: Re, m: nat, k: int)
    requires -1 <= k
    ensures Same(Cat(Rep(a, m, m), Rep(a, 0, k)), Rep(a, m, if k == -1 then -1 else m + k))
  {
    hide Times, Means;
    var n := if k == -1 then -1 else m + k;
    forall w ensures Means(Cat(Rep(a, m, m), Rep(a, 0, k)), w) <==> Means(Rep(a, m, n), w) {
      if Means(Cat(Rep(a, m, m), Rep(a, 0, k)), w) {
        var i := CatOf(Rep(a, m, m), Rep(a, 0, k), w);
        var x := RepTimes(a, m, m, w[..i]);
        var y := RepTimes(a, 0, k, w[i..]);
        TimesAdd(a, x, y, w[..i], w[i..]);
        assert w[..i] + w[i..] == w;
        TimesRep(a, m, n, x + y, w);
      }
      if Means(Rep(a, m, n), w) {
        var x := RepTimes(a, m, n, w);
        var i := TimesCut(a, m, x - m, w);
        TimesRep(a, m, m, m, w[..i]);
        TimesRep(a, 0, k, x - m, w[i..]);
        CatIs(Rep(a, m, m), Rep(a, 0, k), w[..i], w[i..]);
        assert w[..i] + w[i..] == w;
      }
    }
  }

  lemma {:induction false} RepSnoc(a: Re, m: nat)
    ensures Same(Cat(Rep(a, m, m), a), Rep(a, m + 1, m + 1))
  {
    hide Times, Means;
    forall w ensures Means(Cat(Rep(a, m, m), a), w) <==> Means(Rep(a, m + 1, m + 1), w) {
      if Means(Cat(Rep(a, m, m), a), w) {
        var i := CatOf(Rep(a, m, m), a, w);
        var x := RepTimes(a, m, m, w[..i]);
        TimesOne(a, w[i..]);
        TimesAdd(a, m, 1, w[..i], w[i..]);
        assert w[..i] + w[i..] == w;
        TimesRep(a, m + 1, m + 1, m + 1, w);
      }
      if Means(Rep(a, m + 1, m + 1), w) {
        var x := RepTimes(a, m + 1, m + 1, w);
        var i := TimesCut(a, m, 1, w);
        TimesOne(a, w[i..]);
        TimesRep(a, m, m, m, w[..i]);
        CatIs(Rep(a, m, m), a, w[..i], w[i..]);
        assert w[..i] + w[i..] == w;
      }
    }
  }

  lemma {:induction false} NoneRep(a: Re)
    ensures Same(Nil, Rep(a, 0, 0))
  {
    hide Times;
    forall w ensures Means(Nil, w) <==> Means(Rep(a, 0, 0), w) {
      TimesNone(a, w);
      if w == [] { TimesRep(a, 0, 0, 0, w); }
      if Means(Rep(a, 0, 0), w) { var k := RepTimes(a, 0, 0, w); }
    }
  }

  lemma {:induction false} OrNil(a: Re, w: seq<Inst>)
    ensures Means(Or(a, Nil), w) <==> Means(a, w) || w == []
  {
  }

  lemma {:induction false} OnceOrMore(a: Re, k: nat)
    ensures Same(Cat(Or(a, Nil), Rep(a, 0, k)), Rep(a, 0, k + 1))
  {
    hide Times, Means;
    forall w ensures Means(Cat(Or(a, Nil), Rep(a, 0, k)), w) <==> Means(Rep(a, 0, k + 1), w) {
      if Means(Cat(Or(a, Nil), Rep(a, 0, k)), w) { OnceMore(a, k, w); }
      if Means(Rep(a, 0, k + 1), w) { FirstOnce(a, k, w); }
    }
  }

  lemma {:induction false} OnceMore(a: Re, k: nat, w: seq<Inst>)
    requires Means(Cat(Or(a, Nil), Rep(a, 0, k)), w)
    ensures Means(Rep(a, 0, k + 1), w)
  {
    hide Times, Means;
    var i := CatOf(Or(a, Nil), Rep(a, 0, k), w);
    var x := RepTimes(a, 0, k, w[i..]);
    OrNil(a, w[..i]);
    if Means(a, w[..i]) {
      TimesMore(a, x, w[..i], w[i..]);
      assert w[..i] + w[i..] == w;
      TimesRep(a, 0, k + 1, x + 1, w);
    } else {
      assert w[i..] == w;
      TimesRep(a, 0, k + 1, x, w);
    }
  }

  lemma {:induction false} FirstOnce(a: Re, k: nat, w: seq<Inst>)
    requires Means(Rep(a, 0, k + 1), w)
    ensures Means(Cat(Or(a, Nil), Rep(a, 0, k)), w)
  {
    hide Times, Means;
    var x := RepTimes(a, 0, k + 1, w);
    var i := 0;
    if x > 0 {
      i := TimesFirst(a, x, w);
      TimesRep(a, 0, k, x - 1, w[i..]);
    } else {
      TimesNone(a, w);
      TimesRep(a, 0, k, 0, w[0..]) by { assert w[0..] == w; }
    }
    OrNil(a, w[..i]);
    CatIs(Or(a, Nil), Rep(a, 0, k), w[..i], w[i..]);
    assert w[..i] + w[i..] == w;
  }

  lemma {:induction false} AtMostOnce(a: Re)
    ensures Same(Or(a, Nil), Rep(a, 0, 1))
  {
    hide Times, Means;
    forall w ensures Means(Or(a, Nil), w) <==> Means(Rep(a, 0, 1), w) {
      TimesOne(a, w);
      TimesNone(a, w);
      OrNil(a, w);
      if Means(a, w) { TimesRep(a, 0, 1, 1, w); }
      if w == [] { TimesRep(a, 0, 1, 0, w); }
      if Means(Rep(a, 0, 1), w) { var k := RepTimes(a, 0, 1, w); }
    }
  }

  // ---- the emitted code

  /** What was compiled from `start` to the end of `prog`. */
  ghost predicate Atom(prog: seq<Inst>, start: nat, a: Re) { start <= |prog| && Denotes(prog, start, |prog|, a) }

  /** That code is in `more` from `at` on. */
  lemma {:induction false} Placed(prog: seq<Inst>, start: nat, a: Re, more: seq<Inst>, d: nat)
    requires Atom(prog, start, a) && |prog| + d <= |more|
    requires more[start + d..|prog| + d] == Reloc(prog[start..], d)
    ensures Denotes(more, start + d, |prog| + d, a)
  {
    hide Denotes;
    forall pc | start <= pc < |prog| ensures more[pc + d] == Moved(prog[pc], d) {
      assert more[pc + d] == more[start + d..|prog| + d][pc - start];
    }
    DenotesCopied(prog, start, |prog|, more, d, a);
  }

  lemma {:induction false} StarCode(prog: seq<Inst>, start: nat, a: Re, pre: seq<Inst>, d: nat)
    requires Atom(prog, start, a) && |pre| == start + d
    ensures var more := pre + Star(prog[start..], start, d); Denotes(more, |pre|, |more|, Rep(a, 0, -1))
  {
    hide Denotes;
    var atom := prog[start..];
    var more := pre + Star(atom, start, d);
    var lo := |pre|;
    assert more[lo + 1..lo + 1 + |atom|] == Reloc(atom, d + 1);
    Placed(prog, start, a, more, d + 1);
    StarDenotes(more, lo, |more|, a);
  }

  lemma {:induction false} PlusCode(prog: seq<Inst>, start: nat, a: Re)
    requires Atom(prog, start, a)
    ensures var more := prog[..start] + Plus(prog[start..], start); Denotes(more, start, |more|, Rep(a, 1, -1))
  {
    hide Denotes;
    var atom := prog[start..];
    var more := prog[..start] + Plus(atom, start);
    assert more[start..start + |atom|] == Reloc(atom, 0);
    Placed(prog, start, a, more, 0);
    PlusDenotes(more, start, |more|, a);
  }

  lemma {:induction false} OptionalCode(prog: seq<Inst>, start: nat, a: Re, pre: seq<Inst>, d: nat)
    requires Atom(prog, start, a) && |pre| == start + d
    ensures var more := pre + Optional(prog[start..], start, d); Denotes(more, |pre|, |more|, Or(a, Nil))
  {
    hide Denotes;
    var atom := prog[start..];
    var more := pre + Optional(atom, start, d);
    var lo := |pre|;
    assert more[lo + 1..lo + 1 + |atom|] == Reloc(atom, d + 1);
    Placed(prog, start, a, more, d + 1);
    OptionalDenotes(more, lo, |more|, a);
  }

  /** What code means does not depend on what is put behind it. */
  lemma {:induction false} DenotesLonger(prog: seq<Inst>, lo: nat, hi: nat, a: Re, more: seq<Inst>)
    requires Denotes(prog, lo, hi, a) && hi <= |more| && more[lo..hi] == prog[lo..hi]
    ensures Denotes(more, lo, hi, a)
  {
    forall pc | lo <= pc < hi ensures more[pc + 0] == Moved(prog[pc], 0) {
      assert more[lo..hi][pc - lo] == prog[lo..hi][pc - lo];
    }
    hide Denotes;
    DenotesCopied(prog, lo, hi, more, 0, a) by { assert hi <= |prog| by { DenotesWithin(prog, lo, hi, a); } }
  }

  lemma {:induction false} DenotesWithin(prog: seq<Inst>, lo: nat, hi: nat, a: Re)
    requires Denotes(prog, lo, hi, a)
    ensures lo <= hi <= |prog|
  {
  }

  lemma {:induction false} CopiesLength(atom: seq<Inst>, m: nat)
    ensures |Copies(atom, m)| == |atom| * m
  {
    if m > 0 {
      CopiesLength(atom, m - 1);
      assert |atom| * m == |atom| * (m - 1) + |atom|;
    }
  }

  lemma {:induction false} CopiesCode(prog: seq<Inst>, start: nat, a: Re, m: nat)
    requires Atom(prog, start, a)
    ensures var more := prog[..start] + Copies(prog[start..], m); Denotes(more, start, |more|, Rep(a, m, m))
    decreases m
  {
    hide Denotes;
    var atom, pre := prog[start..], prog[..start];
    var more := pre + Copies(atom, m);
    if m == 0 {
      NilDenotes(more, start);
      NoneRep(a);
      DenotesSame(more, start, start, Nil, Rep(a, 0, 0));
    } else {
      CopiesCode(prog, start, a, m - 1);
      CopiesLength(atom, m - 1);
      var less := pre + Copies(atom, m - 1);
      var d := |atom| * (m - 1);
      assert more == less + Reloc(atom, d) && more[start..|less|] == less[start..];
      DenotesLonger(less, start, |less|, Rep(a, m - 1, m - 1), more);
      assert more[start + d..|prog| + d] == Reloc(atom, d);
      Placed(prog, start, a, more, d);
      CatDenotes(more, start, |less|, |more|, Rep(a, m - 1, m - 1), a);
      RepSnoc(a, m - 1);
      DenotesSame(more, start, |more|, Cat(Rep(a, m - 1, m - 1), a), Rep(a, m, m));
    }
  }

  lemma {:induction false} OptionalsCode(prog: seq<Inst>, start: nat, a: Re, pre: seq<Inst>, d: nat, k: nat)
    requires Atom(prog, start, a) && |pre| == start + d
    ensures var more := pre + Optionals(prog[start..], start, d, k); Denotes(more, |pre|, |more|, Rep(a, 0, k))
    decreases k
  {
    hide Denotes;
    var atom := prog[start..];
    var more := pre + Optionals(atom, start, d, k);
    if k == 0 {
      NilDenotes(more, |pre|);
      NoneRep(a);
      DenotesSame(more, |pre|, |pre|, Nil, Rep(a, 0, 0));
    } else {
      var first := pre + Optional(atom, start, d);
      OptionalCode(prog, start, a, pre, d);
      OptionalsCode(prog, start, a, first, d + |atom| + 1, k - 1);
      assert more == first + Optionals(atom, start, d + |atom| + 1, k - 1);
      assert more[|pre|..|first|] == first[|pre|..|first|];
      DenotesLonger(first, |pre|, |first|, Or(a, Nil), more);
      CatDenotes(more, |pre|, |first|, |more|, Or(a, Nil), Rep(a, 0, k - 1));
      OnceOrMore(a, k - 1);
      DenotesSame(more, |pre|, |more|, Cat(Or(a, Nil), Rep(a, 0, k - 1)), Rep(a, 0, k));
    }
  }

  /** Copies, and then the rest. */
  lemma {:induction false} CopiesThen(prog: seq<Inst>, start: nat, a: Re, m: nat, k: int, tail: seq<Inst>)
    requires Atom(prog, start, a) && -1 <= k
    requires var copies := prog[..start] + Copies(prog[start..], m);
             Denotes(copies + tail, |copies|, |copies + tail|, Rep(a, 0, k))
    ensures var more := prog[..start] + (Copies(prog[start..], m) + tail);
            Denotes(more, start, |more|, Rep(a, m, if k == -1 then -1 else m + k))
  {
    hide Denotes, Copies;
    var copies := prog[..start] + Copies(prog[start..], m);
    var more := copies + tail;
    assert more == prog[..start] + (Copies(prog[start..], m) + tail);
    CopiesCode(prog, start, a, m);
    assert more[start..|copies|] == copies[start..|copies|];
    DenotesLonger(copies, start, |copies|, Rep(a, m, m), more);
    CatDenotes(more, start, |copies|, |more|, Rep(a, m, m), Rep(a, 0, k));
    RepAdds(a, m, k);
    DenotesSame(more, start, |more|, Cat(Rep(a, m, m), Rep(a, 0, k)), Rep(a, m, if k == -1 then -1 else m + k));
  }

  /** An interval's code asks for the atom as often as its bounds allow, and no more or less. */
  lemma {:induction false} IntervalCode(prog: seq<Inst>, start: nat, a: Re, b: Bound)
    requires Atom(prog, start, a) && -1 <= b.n && (b.n == -1 || b.m <= b.n)
    ensures var more := prog[..start] + Interval(prog[start..], start, b);
            Denotes(more, start, |more|, Rep(a, b.m, b.n))
  {
    hide Denotes, Copies, Star, Optionals;
    var atom, pre := prog[start..], prog[..start];
    if b.m == 0 && b.n == -1 {
      StarCode(prog, start, a, pre, 0);
    } else {
      var copies, d := pre + Copies(atom, b.m), |Copies(atom, b.m)|;
      if b.n == -1 {
        StarCode(prog, start, a, copies, d);
        CopiesThen(prog, start, a, b.m, -1, Star(atom, start, d));
      } else {
        OptionalsCode(prog, start, a, copies, d, b.n - b.m);
        CopiesThen(prog, start, a, b.m, b.n - b.m, Optionals(atom, start, d, b.n - b.m));
      }
    }
  }

  // ---- one character

  function Repeated(inst: Inst, k: nat): seq<Inst> { seq(k, _ => inst) }

  lemma {:induction false} OneTimes(inst: Inst, k: nat, w: seq<Inst>)
    ensures Times(One(inst), k, w) <==> w == Repeated(inst, k)
    decreases k
  {
    hide Times;
    if k == 0 {
      TimesNone(One(inst), w);
    } else {
      if Times(One(inst), k, w) {
        var i := TimesFirst(One(inst), k, w);
        OneTimes(inst, k - 1, w[i..]);
        assert w == w[..i] + w[i..] && w[..i] == [inst];
      }
      if w == Repeated(inst, k) {
        OneTimes(inst, k - 1, w[1..]);
        assert w[1..] == Repeated(inst, k - 1) && w == [inst] + w[1..];
        TimesMore(One(inst), k - 1, [inst], w[1..]);
      }
    }
  }

  /** The code of an interval on one character: every way through asks for that character, from m to n times over, and
      there is a way for each of these counts. */
  lemma {:induction false} CountsExactly(prog: seq<Inst>, inst: Inst, b: Bound, w: seq<Inst>)
    requires !inst.Jmp? && !inst.Split? && !inst.Match?
    requires -1 <= b.n && (b.n == -1 || b.m <= b.n)
    ensures var more := prog + Interval([inst], |prog|, b);
            Runs(more, |prog|, |more|, |prog|, w) <==>
            exists k: nat :: b.m <= k && (b.n == -1 || k <= b.n) && w == Repeated(inst, k)
  {
    var start, with, a := |prog|, prog + [inst], One(inst);
    OneDenotes(with, start);
    IntervalCode(with, start, a, b);
    assert with[..start] == prog && with[start..] == [inst];
    var more := prog + Interval([inst], start, b);
    assert Runs(more, start, |more|, start, w) <==> Means(Rep(a, b.m, b.n), w);
    hide Times, Means, Runs, Denotes, Interval;
    if Means(Rep(a, b.m, b.n), w) {
      var k := RepTimes(a, b.m, b.n, w);
      OneTimes(inst, k, w);
    }
    forall k: nat | b.m <= k && (b.n == -1 || k <= b.n) && w == Repeated(inst, k) ensures Means(Rep(a, b.m, b.n), w) {
      OneTimes(inst, k, w);
      TimesRep(a, b.m, b.n, k, w);
    }
  }
}
