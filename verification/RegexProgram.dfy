// src/regex/regex.c: the programs the compiler emits.

/** Where the jumps of compiled code lead. */
module RegexProgram {
  import opened RegexCompiler

  /** Instructions that advance the subject. */
  predicate Consumes(inst: Inst) { inst.Char? || inst.Any? || inst.Set? }

  /** The jump that closes a loop around one consuming instruction. */
  predicate LoopJmp(prog: seq<Inst>, pc: nat, lo: nat) {
    lo + 2 <= pc < |prog| && prog[pc] == Jmp(pc - 2) && prog[pc - 2] == Split(pc - 1, pc + 1) && Consumes(prog[pc - 1])
  }

  /** The instruction at `pc` stays within the code from `lo` on; when `strict`, it leads
      back only over an instruction that consumes. */
  predicate Fine(prog: seq<Inst>, pc: nat, lo: nat, strict: bool)
    requires lo <= pc < |prog|
  {
    match prog[pc]
    case Jmp(x) => lo <= x <= |prog| && (strict ==> x > pc || LoopJmp(prog, pc, lo))
    case Split(x, y) =>
      lo <= x <= |prog| && pc < y <= |prog| && (strict ==> x > pc || (x + 1 == pc && lo <= x && Consumes(prog[x])))
    case _ => true
  }

  predicate FineFrom(prog: seq<Inst>, lo: nat, strict: bool) {
    lo <= |prog| && forall pc :: lo <= pc < |prog| ==> Fine(prog, pc, lo, strict)
  }

  /** Code stays fine when more is put after it, or when it is seen from further back. */
  lemma {:induction false} Carry(a: seq<Inst>, b: seq<Inst>, lo: nat, from: nat, pc: nat, strict: bool)
    requires from <= lo <= pc < |a| <= |b| && b[lo..|a|] == a[lo..] && Fine(a, pc, lo, strict)
    ensures Fine(b, pc, from, strict)
  {
    assert forall k :: lo <= k < |a| ==> a[k] == a[lo..][k - lo] == b[lo..|a|][k - lo] == b[k];
  }

  lemma {:induction false} Append(a: seq<Inst>, b: seq<Inst>, lo: nat, strict: bool)
    requires FineFrom(a, lo, strict) && FineFrom(b, |a|, strict) && b[..|a|] == a
    ensures FineFrom(b, lo, strict)
  {
    forall pc | lo <= pc < |b| ensures Fine(b, pc, lo, strict) {
      if pc < |a| {
        assert b[lo..|a|] == b[..|a|][lo..] == a[lo..];
        Carry(a, b, lo, lo, pc, strict);
      } else {
        Carry(b, b, |a|, lo, pc, strict);
      }
    }
  }

  /** Relocated code is as fine where it lands as it was where it came from. */
  lemma {:induction false} Shift(prog: seq<Inst>, start: nat, pre: seq<Inst>, d: nat, strict: bool)
    requires FineFrom(prog, start, strict) && |pre| == start + d
    ensures FineFrom(pre + Reloc(prog[start..], d), |pre|, strict)
  {
    var moved := pre + Reloc(prog[start..], d);
    assert forall k :: start <= k < |prog| ==> moved[k + d] == Moved(prog[k], d);
    forall pc | |pre| <= pc < |moved| ensures Fine(moved, pc, |pre|, strict) {
      assert Fine(prog, pc - d, start, strict);
      assert moved[pc] == Moved(prog[pc - d], d);
      if pc >= |pre| + 1 { assert moved[pc - 1] == Moved(prog[pc - 1 - d], d); }
      if pc >= |pre| + 2 { assert moved[pc - 2] == Moved(prog[pc - 2 - d], d); }
    }
  }

  /** The atom a repeat wraps: fine code, and a single consuming instruction when `strict`. */
  predicate Wrappable(prog: seq<Inst>, start: nat, strict: bool) {
    FineFrom(prog, start, strict) && (strict ==> |prog| == start + 1 && Consumes(prog[start]))
  }

  lemma {:induction false} StarFine(prog: seq<Inst>, start: nat, pre: seq<Inst>, d: nat, strict: bool)
    requires Wrappable(prog, start, strict) && |pre| == start + d
    ensures FineFrom(pre + Star(prog[start..], start, d), |pre|, strict)
  {
    var atom := prog[start..];
    var s1 := pre + [Split(start + d + 1, start + d + |atom| + 2)];
    var s2 := s1 + Reloc(atom, d + 1);
    var s3 := pre + Star(atom, start, d);
    Shift(prog, start, s1, d + 1, strict);
    assert s3 == s2 + [Jmp(start + d)];
    forall pc | |pre| <= pc < |s3| ensures Fine(s3, pc, |pre|, strict) {
      if |s1| <= pc < |s2| {
        assert s3[|s1|..|s2|] == s2[|s1|..];
        Carry(s2, s3, |s1|, |pre|, pc, strict);
      } else if pc == |s2| && strict {
        assert s3[pc - 1] == Moved(atom[0], d + 1);
        assert LoopJmp(s3, pc, |pre|);
      }
    }
  }

  lemma {:induction false} PlusFine(prog: seq<Inst>, start: nat, strict: bool)
    requires Wrappable(prog, start, strict)
    ensures FineFrom(prog[..start] + Plus(prog[start..], start), start, strict)
  {
    var atom := prog[start..];
    var s1 := prog[..start] + Reloc(atom, 0);
    var s2 := prog[..start] + Plus(atom, start);
    Shift(prog, start, prog[..start], 0, strict);
    assert s2 == s1 + [Split(start, start + |atom| + 1)];
    forall pc | start <= pc < |s2| ensures Fine(s2, pc, start, strict) {
      if pc < |s1| {
        assert s2[start..|s1|] == s1[start..];
        Carry(s1, s2, start, start, pc, strict);
      } else if strict {
        assert s2[start] == Moved(atom[0], 0);
      }
    }
  }

  lemma {:induction false} OptionalFine(prog: seq<Inst>, start: nat, pre: seq<Inst>, d: nat, strict: bool)
    requires Wrappable(prog, start, strict) && |pre| == start + d
    ensures FineFrom(pre + Optional(prog[start..], start, d), |pre|, strict)
  {
    var atom := prog[start..];
    var s1 := pre + [Split(start + d + 1, start + d + |atom| + 1)];
    var s2 := pre + Optional(atom, start, d);
    Shift(prog, start, s1, d + 1, strict);
    assert s2 == s1 + Reloc(atom, d + 1);
    forall pc | |pre| <= pc < |s2| ensures Fine(s2, pc, |pre|, strict) {
      if |s1| <= pc { Carry(s2, s2, |s1|, |pre|, pc, strict); }
    }
  }

  lemma {:induction false} OptionalsFine(prog: seq<Inst>, start: nat, pre: seq<Inst>, d: nat, k: nat, strict: bool)
    requires Wrappable(prog, start, strict) && |pre| == start + d
    ensures FineFrom(pre + Optionals(prog[start..], start, d, k), |pre|, strict)
    decreases k
  {
    var atom := prog[start..];
    if k == 0 {
      assert pre + Optionals(atom, start, d, k) == pre;
    } else {
      var one := pre + Optional(atom, start, d);
      OptionalFine(prog, start, pre, d, strict);
      OptionalsFine(prog, start, one, d + |atom| + 1, k - 1, strict);
      var all := one + Optionals(atom, start, d + |atom| + 1, k - 1);
      hide FineFrom, Wrappable, Optional;
      assert pre + Optionals(atom, start, d, k) == all;
      assert all[..|one|] == one;
      Append(one, all, |pre|, strict);
    }
  }

  lemma {:induction false} CopiesFine(prog: seq<Inst>, start: nat, m: nat, strict: bool)
    requires Wrappable(prog, start, strict)
    ensures |Copies(prog[start..], m)| == |prog[start..]| * m
    ensures FineFrom(prog[..start] + Copies(prog[start..], m), start, strict)
    decreases m
  {
    var atom, pre := prog[start..], prog[..start];
    if m == 0 {
      assert pre + Copies(atom, m) == pre;
    } else {
      CopiesFine(prog, start, m - 1, strict);
      var d := |atom| * (m - 1);
      assert |atom| * m == d + |atom|;
      var some := pre + Copies(atom, m - 1);
      Shift(prog, start, some, d, strict);
      var all := some + Reloc(atom, d);
      assert pre + Copies(atom, m) == all;
      assert all[..|some|] == some;
      Append(some, all, start, strict);
    }
  }

  lemma {:induction false} TailFine(pre: seq<Inst>, copies: seq<Inst>, tail: seq<Inst>, strict: bool)
    requires FineFrom(pre + copies, |pre|, strict) && FineFrom(pre + copies + tail, |pre + copies|, strict)
    ensures FineFrom(pre + (copies + tail), |pre|, strict)
  {
    hide FineFrom;
    var some := pre + copies;
    assert pre + (copies + tail) == some + tail;
    assert (some + tail)[..|some|] == some;
    Append(some, some + tail, |pre|, strict);
  }

  lemma {:induction false} IntervalFine(prog: seq<Inst>, start: nat, b: Bound, strict: bool)
    requires Wrappable(prog, start, strict) && (b.n == -1 || b.m <= b.n)
    ensures FineFrom(prog[..start] + Interval(prog[start..], start, b), start, strict)
  {
    hide Star, Copies, Optionals, Fine;
    var atom, pre := prog[start..], prog[..start];
    if b.m == 0 && b.n == -1 {
      StarFine(prog, start, pre, 0, strict);
    } else {
      CopiesFine(prog, start, b.m, strict);
      var copies := Copies(atom, b.m);
      var d := |copies|;
      if b.n == -1 {
        StarFine(prog, start, pre + copies, d, strict);
        TailFine(pre, copies, Star(atom, start, d), strict);
      } else {
        OptionalsFine(prog, start, pre + copies, d, b.n - b.m, strict);
        TailFine(pre, copies, Optionals(atom, start, d, b.n - b.m), strict);
      }
    }
  }
}
