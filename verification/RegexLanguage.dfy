// src/regex/regex.c: what regexec finds, against what the pattern means.

/** From patterns to matches. */
module RegexLanguage {
  import opened Options
  import opened RegexCompiler
  import opened RegexProgram
  import opened RegexMeaning
  import opened RegexGrammar
  import RegexRepeats
  import opened RegexSafety
  import opened RegexMachine
  import opened RegexMatcher
  import opened RegexExec
  import opened RegexThorough

  /** Asking for all of w in turn, from an offset and captures on. */
  function Reads(s: Subject, w: seq<Inst>, sp: nat, slots: seq<int>): Option<(nat, seq<int>)> {
    if w == [] then Some((sp, slots))
    else
      var r := Does(s, w[0], sp, slots);
      if r.None? then None else Reads(s, w[1..], r.value.0, r.value.1)
  }

  lemma {:induction false} ReadsOn(s: Subject, u: seq<Inst>, v: seq<Inst>, sp: nat, slots: seq<int>)
    ensures Reads(s, u + v, sp, slots) ==
            var r := Reads(s, u, sp, slots); if r.None? then None else Reads(s, v, r.value.0, r.value.1)
  {
    if u == [] {
      assert u + v == v;
    } else {
      assert (u + v)[1..] == u[1..] + v;
      var r := Does(s, u[0], sp, slots);
      if r.Some? { ReadsOn(s, u[1..], v, r.value.0, r.value.1); }
    }
  }

  // ---- routes and the words on them

  /** A route to the match asks for a word of the program, and reads it. */
  lemma {:induction false} RouteReads(prog: seq<Inst>, s: Subject, hi: nat, path: seq<Place>) returns (pcs: seq<nat>)
    requires Closed(prog, 0, hi) && hi < |prog| && prog[hi].Match?
    requires path != [] && Route(prog, s, path) && path[0].pc <= hi && path[|path| - 1].pc == hi
    ensures Via(prog, 0, hi, path[0].pc, pcs)
    ensures var e := path[|path| - 1]; Reads(s, Word(prog, pcs), path[0].sp, path[0].slots) == Some((e.sp, e.slots))
    decreases |path|
  {
    var a := path[0];
    if |path| == 1 {
      pcs := [hi];
    } else {
      var b, rest := path[1], path[1..];
      assert path[0 + 1] in Ways(prog, s, path[0]);
      RouteRest(prog, s, path);
      OneWay(prog, s, hi, a, b);
      hide Ways, Closed;
      var more := RouteReads(prog, s, hi, rest);
      pcs := [a.pc] + more;
      assert pcs[1..] == more;
      ViaMore(prog, hi, a.pc, b.pc, more);
      ReadsOn(s, Label(prog, a.pc), Word(prog, more), a.sp, a.slots);
    }
  }

  lemma {:induction false} RouteRest(prog: seq<Inst>, s: Subject, path: seq<Place>)
    requires Route(prog, s, path) && 1 < |path|
    ensures Route(prog, s, path[1..])
  {
    hide Ways;
    var rest := path[1..];
    forall i | 0 <= i < |rest| - 1 ensures rest[i + 1] in Ways(prog, s, rest[i]) {
      assert path[(i + 1) + 1] in Ways(prog, s, path[i + 1]);
    }
  }

  lemma {:induction false} ViaMore(prog: seq<Inst>, hi: nat, a: nat, b: nat, more: seq<nat>)
    requires Via(prog, 0, hi, b, more) && Edge(prog, a, b) && a < hi
    ensures Via(prog, 0, hi, a, [a] + more)
  {
    var pcs := [a] + more;
    forall k | 0 <= k < |pcs| - 1 ensures Edge(prog, pcs[k], pcs[k + 1]) && 0 <= pcs[k] < hi {
      if k > 0 { assert Edge(prog, more[k - 1], more[k - 1 + 1]); }
    }
  }

  lemma {:induction false} OneWay(prog: seq<Inst>, s: Subject, hi: nat, a: Place, b: Place)
    requires Closed(prog, 0, hi) && hi < |prog| && prog[hi].Match? && a.pc <= hi && b in Ways(prog, s, a)
    ensures a.pc < hi && b.pc <= hi && Edge(prog, a.pc, b.pc)
    ensures Reads(s, Label(prog, a.pc), a.sp, a.slots) == Some((b.sp, b.slots))
  {
    if a.pc < hi { assert Leads(prog, a.pc, 0, hi); }
    var l := Label(prog, a.pc);
    if l != [] { assert l[1..] == []; }
  }

  /** The other way round. */
  lemma {:induction false} ReadsRoute(prog: seq<Inst>, s: Subject, hi: nat, pcs: seq<nat>, c: Place)
    returns (path: seq<Place>)
    requires Via(prog, 0, hi, c.pc, pcs) && Reads(s, Word(prog, pcs), c.sp, c.slots).Some?
    ensures var r := Reads(s, Word(prog, pcs), c.sp, c.slots).value;
            Along(prog, s, c, Place(hi, r.0, r.1), path)
    decreases |pcs|
  {
    if |pcs| == 1 {
      path := [c];
    } else {
      var rest := pcs[1..];
      assert Edge(prog, pcs[0], pcs[0 + 1]);
      ReadsOn(s, Label(prog, c.pc), Word(prog, rest), c.sp, c.slots);
      var q := Reads(s, Label(prog, c.pc), c.sp, c.slots).value;
      var d := Place(pcs[1], q.0, q.1);
      EdgeWay(prog, s, c, d);
      ViaRest(prog, hi, c.pc, pcs);
      hide Ways, Reads, Edge;
      var more := ReadsRoute(prog, s, hi, rest, d);
      path := [c] + more;
      AlongMore(prog, s, c, d, more);
    }
  }

  lemma {:induction false} AlongMore(prog: seq<Inst>, s: Subject, c: Place, d: Place, more: seq<Place>)
    requires more != [] && Along(prog, s, d, more[|more| - 1], more) && d in Ways(prog, s, c)
    ensures Along(prog, s, c, more[|more| - 1], [c] + more)
  {
    hide Ways;
    var path := [c] + more;
    forall i | 0 <= i < |path| - 1 ensures path[i + 1] in Ways(prog, s, path[i]) {
      if i > 0 { assert more[i - 1 + 1] in Ways(prog, s, more[i - 1]); }
    }
  }

  lemma {:induction false} ViaRest(prog: seq<Inst>, hi: nat, a: nat, pcs: seq<nat>)
    requires Via(prog, 0, hi, a, pcs) && 1 < |pcs|
    ensures Via(prog, 0, hi, pcs[1], pcs[1..])
  {
    hide Edge;
    var rest := pcs[1..];
    forall k | 0 <= k < |rest| - 1 ensures Edge(prog, rest[k], rest[k + 1]) && 0 <= rest[k] < hi {
      assert Edge(prog, pcs[k + 1], pcs[(k + 1) + 1]);
    }
  }

  lemma {:induction false} EdgeWay(prog: seq<Inst>, s: Subject, c: Place, d: Place)
    requires Edge(prog, c.pc, d.pc) && Reads(s, Label(prog, c.pc), c.sp, c.slots) == Some((d.sp, d.slots))
    ensures d in Ways(prog, s, c)
  {
    var l := Label(prog, c.pc);
    if l != [] { assert l[1..] == []; }
  }

  lemma {:induction false} ReadsLength(s: Subject, w: seq<Inst>, sp: nat, slots: seq<int>)
    requires Reads(s, w, sp, slots).Some?
    ensures |Reads(s, w, sp, slots).value.1| == |slots|
  {
    if w != [] {
      var r := Does(s, w[0], sp, slots).value;
      ReadsLength(s, w[1..], r.0, r.1);
    }
  }

  // ---- what a pattern matches

  /** The text behind `start` fits what v asks for, and `slots` say what was captured, the whole match first. */
  predicate Fits(s: Subject, v: seq<Inst>, start: nat, n: nat, slots: seq<int>) {
    var r := Reads(s, v, start, Saved(Start(start, n).slots, 0, start));
    r.Some? && slots == Saved(r.value.1, 1, r.value.0)
  }

  ghost predicate Matches(t: Tree, s: Subject, start: nat, n: nat, slots: seq<int>) {
    exists v :: Means(Meaning(t), v) && Fits(s, v, start, n, slots)
  }

  function Whole(t: Tree): Re { Cat(One(Save(0)), Cat(Meaning(t), One(Save(1)))) }

  lemma {:induction false} WholeIs(t: Tree, v: seq<Inst>)
    requires Means(Meaning(t), v)
    ensures Means(Whole(t), [Save(0)] + (v + [Save(1)]))
  {
    hide Meaning;
    RegexRepeats.CatIs(Meaning(t), One(Save(1)), v, [Save(1)]);
    RegexRepeats.CatIs(One(Save(0)), Cat(Meaning(t), One(Save(1))), [Save(0)], v + [Save(1)]);
  }

  lemma {:induction false} OneMeans(inst: Inst, w: seq<Inst>)
    requires Means(One(inst), w)
    ensures w == [inst]
  {
  }

  lemma {:induction false} WholeOf(t: Tree, w: seq<Inst>) returns (v: seq<Inst>)
    requires Means(Whole(t), w)
    ensures w == [Save(0)] + (v + [Save(1)]) && Means(Meaning(t), v)
  {
    hide Means;
    var i := RegexRepeats.CatOf(One(Save(0)), Cat(Meaning(t), One(Save(1))), w);
    var u := w[i..];
    var j := RegexRepeats.CatOf(Meaning(t), One(Save(1)), u);
    v := u[..j];
    OneMeans(Save(0), w[..i]);
    OneMeans(Save(1), u[j..]);
    assert u == v + [Save(1)] && w == w[..i] + u && w[..i] == [Save(0)];
  }

  lemma {:induction false} WholeReads(s: Subject, v: seq<Inst>, start: nat, n: nat, slots: seq<int>)
    ensures var r := Reads(s, [Save(0)] + (v + [Save(1)]), start, Start(start, n).slots);
            Fits(s, v, start, n, slots) <==> r.Some? && r.value.1 == slots
  {
    var init := Start(start, n).slots;
    var kept := Saved(init, 0, start);
    ReadsOn(s, [Save(0)], v + [Save(1)], start, init);
    assert [Save(0)][1..] == [] && Reads(s, [Save(0)], start, init) == Some((start, kept));
    ReadsOn(s, v, [Save(1)], start, kept);
    var r := Reads(s, v, start, kept);
    if r.Some? {
      assert [Save(1)][1..] == [];
      assert Reads(s, [Save(1)], r.value.0, r.value.1) == Some((r.value.0, Saved(r.value.1, 1, r.value.0)));
    }
  }

  /** A match with these captures can be reached in the program exactly if the pattern matches with them. */
  ghost predicate Reached(prog: seq<Inst>, s: Subject, start: nat, n: nat, slots: seq<int>) {
    exists c :: Reach(prog, s, Start(start, n), c) && AtMatch(prog, c) && c.slots == slots
  }

  lemma {:induction false} ReachedMatches(prog: seq<Inst>, t: Tree, s: Subject, start: nat, n: nat, slots: seq<int>)
    requires prog != [] && prog[|prog| - 1].Match? && Denotes(prog, 0, |prog| - 1, Whole(t))
    requires Reached(prog, s, start, n, slots)
    ensures Matches(t, s, start, n, slots)
  {
    var hi := |prog| - 1;
    var c :| Reach(prog, s, Start(start, n), c) && AtMatch(prog, c) && c.slots == slots;
    assert c.pc >= hi || Leads(prog, c.pc, 0, hi);
    var path :| Along(prog, s, Start(start, n), c, path);
    hide Ways, Meaning;
    var pcs := RouteReads(prog, s, hi, path);
    var w := Word(prog, pcs);
    assert Runs(prog, 0, hi, 0, w);
    DenotesAt(prog, 0, hi, Whole(t), w);
    var v := WholeOf(t, w);
    WholeReads(s, v, start, n, slots);
  }

  lemma {:induction false} MatchesReached(prog: seq<Inst>, t: Tree, s: Subject, start: nat, n: nat, slots: seq<int>)
    requires prog != [] && prog[|prog| - 1].Match? && Denotes(prog, 0, |prog| - 1, Whole(t))
    requires Matches(t, s, start, n, slots)
    ensures Reached(prog, s, start, n, slots)
  {
    var hi := |prog| - 1;
    var v :| Means(Meaning(t), v) && Fits(s, v, start, n, slots);
    hide Ways, Meaning, Closed;
    WholeIs(t, v);
    WholeReads(s, v, start, n, slots);
    var w := [Save(0)] + (v + [Save(1)]);
    DenotesAt(prog, 0, hi, Whole(t), w);
    var pcs :| Via(prog, 0, hi, 0, pcs) && Word(prog, pcs) == w;
    var path := ReadsRoute(prog, s, hi, pcs, Start(start, n));
    var r := Reads(s, w, start, Start(start, n).slots).value;
    assert Reach(prog, s, Start(start, n), Place(hi, r.0, r.1));
  }

  // ---- whole patterns

  lemma {:induction false} CompiledReady(p: string, ere: bool)
    requires RegComp(p, ere).Ok?
    ensures var prog := RegComp(p, ere).value.prog;
            FineFrom(prog, 0, false) && prog != [] && prog[|prog| - 1].Match?
  {
    CompiledFine(p, ere);
    hide RegComp;
    Loosen(RegComp(p, ere).value.prog, RegComp(p, ere).value.plain);
  }

  /** What regexec reports on a compiled pattern. */
  ghost predicate Answers(p: string, ere: bool, s: Subject, n: nat, budget: nat, r: Report)
    requires RegComp(p, ere).Ok?
  {
    CompiledReady(p, ere);
    Reports(RegComp(p, ere).value.prog, s, n, budget, r)
  }

  /** At no start does a refused back edge lead to what is not tried anyway. */
  ghost predicate Thorough(p: string, ere: bool, s: Subject, n: nat)
    requires RegComp(p, ere).Ok?
  {
    CompiledReady(p, ere);
    forall k :: 0 <= k <= s.len ==> Harmless(RegComp(p, ere).value.prog, s, k, n)
  }

  /** The leftmost match of the pattern, and of those the longest; nothing only if there is none. */
  ghost predicate LeftmostLongest(t: Tree, s: Subject, n: nat, r: Report) {
    match r
    case Matched(start, slots) =>
      && 1 < |slots| && Matches(t, s, start, n, slots)
      && (forall k, other :: 0 <= k < start ==> !Matches(t, s, k, n, other))
      && (forall other :: Matches(t, s, start, n, other) ==> |other| == |slots| && other[1] <= slots[1])
    case Nothing => forall k, other :: 0 <= k <= s.len ==> !Matches(t, s, k, n, other)
    case OutOfSpace => true
  }

  /** What regexec reports is a match of the pattern, with its captures; and if no refused back edge loses anything,
      it is the leftmost and longest one. */
  lemma {:induction false} RegexecRight(p: string, ere: bool, s: Subject, n: nat, budget: nat, r: Report)
    returns (t: Tree)
    requires RegComp(p, ere).Ok? && 1 < n && Answers(p, ere, s, n, budget, r)
    ensures Written(p, t, ere)
    ensures r.Matched? ==> r.start <= s.len && Matches(t, s, r.start, n, r.slots)
    ensures Thorough(p, ere, s, n) ==> LeftmostLongest(t, s, n, r)
  {
    t := CompiledMeans(p, ere);
    CompiledReady(p, ere);
    var prog := RegComp(p, ere).value.prog;
    hide RegComp, FineFrom, Denotes, Matches, Written, TurnsFrom, TriedFrom, Harmless;
    if r.Matched? { BestMatches(prog, t, s, r.start, n, r.slots); }
    if Thorough(p, ere, s, n) {
      forall k, other | 0 <= k <= s.len && Matches(t, s, k, n, other)
        ensures |other| == n && !NoneAt(prog, s, k, n)
        ensures r.Matched? && k == r.start ==> other[1] <= r.slots[1] {
        MatchTried(prog, t, s, k, n, other);
      }
    }
  }

  ghost predicate NoneAt(prog: seq<Inst>, s: Subject, k: nat, n: nat)
    requires FineFrom(prog, 0, false) && k <= s.len
  {
    !MatchIn(prog, TriedFrom(prog, s, k, n), n)
  }

  lemma {:induction false} BestMatches(prog: seq<Inst>, t: Tree, s: Subject, start: nat, n: nat, slots: seq<int>)
    requires FineFrom(prog, 0, false) && start <= s.len && 1 < |slots| && prog != [] && prog[|prog| - 1].Match?
    requires Denotes(prog, 0, |prog| - 1, Whole(t)) && Best(prog, TriedFrom(prog, s, start, n), true, slots)
    ensures Matches(t, s, start, n, slots)
  {
    hide FineFrom, Denotes, Matches, TriedFrom, Reach;
    var c :| c in TriedFrom(prog, s, start, n) && AtMatch(prog, c) && c.slots == slots;
    FromReach(prog, s, start, n, c);
    ReachedMatches(prog, t, s, start, n, slots);
  }

  lemma {:induction false} MatchTried(prog: seq<Inst>, t: Tree, s: Subject, start: nat, n: nat, slots: seq<int>)
    requires FineFrom(prog, 0, false) && start <= s.len && prog != [] && prog[|prog| - 1].Match?
    requires Denotes(prog, 0, |prog| - 1, Whole(t)) && Harmless(prog, s, start, n) && Matches(t, s, start, n, slots)
    ensures |slots| == n && exists c :: c in TriedFrom(prog, s, start, n) && AtMatch(prog, c) && c.slots == slots
  {
    MatchLength(t, s, start, n, slots);
    hide FineFrom, Denotes, Matches, TriedFrom, Harmless, Reach;
    MatchesReached(prog, t, s, start, n, slots);
    TriesAllExactly(prog, s, start, n);
    var c :| Reach(prog, s, Start(start, n), c) && AtMatch(prog, c) && c.slots == slots;
    assert c in TriedFrom(prog, s, start, n);
  }

  lemma {:induction false} MatchLength(t: Tree, s: Subject, start: nat, n: nat, slots: seq<int>)
    requires Matches(t, s, start, n, slots)
    ensures |slots| == n
  {
    var v :| Means(Meaning(t), v) && Fits(s, v, start, n, slots);
    ReadsLength(s, v, start, Saved(Start(start, n).slots, 0, start));
  }

  /** A pattern whose repeats are all on single characters, with at most one loop and no choice in front of it that
      comes back to it: regexec finds the leftmost and longest match on every subject. */
  lemma {:induction false} OneLoopRight(p: string, ere: bool, b: nat, s: Subject, n: nat, budget: nat, r: Report)
    returns (t: Tree)
    requires RegComp(p, ere).Ok? && RegComp(p, ere).value.plain && OneLoop(RegComp(p, ere).value.prog, b)
    requires 1 < n && Answers(p, ere, s, n, budget, r)
    ensures Written(p, t, ere) && LeftmostLongest(t, s, n, r)
  {
    t := RegexecRight(p, ere, s, n, budget, r);
    CompiledFine(p, ere);
    CompiledReady(p, ere);
    var prog := RegComp(p, ere).value.prog;
    hide RegComp, FineFrom, LeftmostLongest, Written, OneLoop, Answers, TriesAll;
    forall k | 0 <= k <= s.len ensures Harmless(prog, s, k, n) {
      OneLoopThorough(prog, s, k, n, b);
      TriesAllExactly(prog, s, k, n);
    }
  }
}
