// src/regex/regex.c: what a program matches.

/** The ways through a program, and the expressions that describe them. */
module RegexMeaning {
  import opened RegexCompiler

  // ---- ways through a program

  predicate Edge(prog: seq<Inst>, a: nat, b: nat) {
    a < |prog| &&
    match prog[a]
    case Jmp(x) => b == x
    case Split(x, y) => b == x || b == y
    case Match => false
    case _ => b == a + 1
  }

  predicate Path(prog: seq<Inst>, path: seq<nat>) {
    forall k :: 0 <= k < |path| - 1 ==> Edge(prog, path[k], path[k + 1])
  }

  /** What an instruction asks of the subject, or notes. */
  function Label(prog: seq<Inst>, pc: nat): seq<Inst> {
    if pc < |prog| && !prog[pc].Jmp? && !prog[pc].Split? then [prog[pc]] else []
  }

  /** What is asked on the way, in order. */
  function Word(prog: seq<Inst>, path: seq<nat>): seq<Inst> {
    if |path| <= 1 then [] else Label(prog, path[0]) + Word(prog, path[1..])
  }

  /** A path through the code from lo to hi, beginning at a. */
  predicate Via(prog: seq<Inst>, lo: nat, hi: nat, a: nat, path: seq<nat>) {
    && path != [] && path[0] == a && path[|path| - 1] == hi && Path(prog, path)
    && forall k :: 0 <= k < |path| - 1 ==> lo <= path[k] < hi
  }

  ghost predicate Runs(prog: seq<Inst>, lo: nat, hi: nat, a: nat, w: seq<Inst>) {
    exists path :: Via(prog, lo, hi, a, path) && Word(prog, path) == w
  }

  /** An instruction leads on within the code or to its end. */
  predicate Leads(prog: seq<Inst>, pc: nat, lo: nat, hi: nat)
    requires pc < |prog|
  {
    match prog[pc]
    case Jmp(x) => lo <= x <= hi
    case Split(x, y) => lo <= x <= hi && lo <= y <= hi
    case Match => false
    case _ => true
  }

  predicate Closed(prog: seq<Inst>, lo: nat, hi: nat) {
    lo <= hi <= |prog| && forall pc :: lo <= pc < hi ==> Leads(prog, pc, lo, hi)
  }

  // ---- paths, taken apart and put together

  lemma {:induction false} WordOf(prog: seq<Inst>, path: seq<nat>, k: nat)
    requires k < |path|
    ensures Word(prog, path) == Word(prog, path[..k + 1]) + Word(prog, path[k..])
    decreases k
  {
    if k == 0 {
      assert path[0..] == path && Word(prog, path[..1]) == [];
    } else {
      WordOf(prog, path[1..], k - 1);
      assert path[..k + 1][1..] == path[1..][..k] && path[1..][k - 1..] == path[k..];
      assert path[..k + 1][0] == path[0];
    }
  }

  lemma {:induction false} Joined(prog: seq<Inst>, p: seq<nat>, q: seq<nat>) returns (path: seq<nat>)
    requires p != [] && q != [] && p[|p| - 1] == q[0] && Path(prog, p) && Path(prog, q)
    ensures path == p + q[1..] && Path(prog, path) && Word(prog, path) == Word(prog, p) + Word(prog, q)
    ensures path[0] == p[0] && path[|path| - 1] == q[|q| - 1]
  {
    path := p + q[1..];
    var n := |p| - 1;
    forall k | 0 <= k < |path| - 1 ensures Edge(prog, path[k], path[k + 1]) {
      if k < n {
        assert Edge(prog, p[k], p[k + 1]);
      } else {
        assert Edge(prog, q[k - n], q[k - n + 1]);
        assert path[k] == q[k - n] && path[k + 1] == q[k - n + 1];
      }
    }
    WordOf(prog, path, n);
    assert path[..n + 1] == p && path[n..] == q;
  }

  /** A path that gets out of closed code goes through its end, and first arrives there. */
  lemma {:induction false} Arrives(prog: seq<Inst>, lo: nat, hi: nat, path: seq<nat>) returns (k: nat)
    requires Closed(prog, lo, hi) && path != [] && lo <= path[0] <= hi && Path(prog, path)
    requires !(lo <= path[|path| - 1] < hi)
    ensures k < |path| && path[k] == hi && forall j :: 0 <= j < k ==> lo <= path[j] < hi
    decreases |path|
  {
    if path[0] == hi {
      k := 0;
    } else {
      assert Edge(prog, path[0], path[0 + 1]) && Leads(prog, path[0], lo, hi);
      var rest := path[1..];
      Part(prog, path, 1, |path|);
      k := Arrives(prog, lo, hi, rest);
      k := k + 1;
    }
  }

  lemma {:induction false} Part(prog: seq<Inst>, path: seq<nat>, i: nat, j: nat)
    requires Path(prog, path) && i <= j <= |path|
    ensures Path(prog, path[i..j])
  {
    var r := path[i..j];
    forall k | 0 <= k < |r| - 1 ensures Edge(prog, r[k], r[k + 1]) { assert Edge(prog, path[i + k], path[i + k + 1]); }
  }

  /** The same code elsewhere: jumps follow it. */
  predicate Copied(prog: seq<Inst>, lo: nat, hi: nat, more: seq<Inst>, d: nat) {
    hi <= |prog| && hi + d <= |more| && forall pc :: lo <= pc < hi ==> more[pc + d] == Moved(prog[pc], d)
  }

  function Up(path: seq<nat>, d: nat): (r: seq<nat>)
    ensures |r| == |path| && forall k :: 0 <= k < |r| ==> r[k] == path[k] + d
  {
    seq(|path|, k requires 0 <= k < |path| => path[k] + d)
  }

  lemma {:induction false} WordCopied(prog: seq<Inst>, lo: nat, hi: nat, more: seq<Inst>, d: nat, path: seq<nat>)
    requires Copied(prog, lo, hi, more, d) && forall k :: 0 <= k < |path| - 1 ==> lo <= path[k] < hi
    ensures Word(more, Up(path, d)) == Word(prog, path)
  {
    if |path| > 1 {
      LabelCopied(prog, lo, hi, more, d, path[0]);
      hide Copied, Label;
      WordCopied(prog, lo, hi, more, d, path[1..]);
      assert Up(path, d)[1..] == Up(path[1..], d);
    }
  }

  lemma {:induction false} LabelCopied(prog: seq<Inst>, lo: nat, hi: nat, more: seq<Inst>, d: nat, pc: nat)
    requires Copied(prog, lo, hi, more, d) && lo <= pc < hi
    ensures Label(more, pc + d) == Label(prog, pc)
  {
    assert more[pc + d] == Moved(prog[pc], d);
  }

  lemma {:induction false} EdgeCopied(prog: seq<Inst>, lo: nat, hi: nat, more: seq<Inst>, d: nat, a: nat, b: nat)
    requires Copied(prog, lo, hi, more, d) && lo <= a < hi
    ensures Edge(prog, a, b) <==> Edge(more, a + d, b + d)
  {
    assert more[a + d] == Moved(prog[a], d);
  }

  lemma {:induction false} ViaCopied(prog: seq<Inst>, lo: nat, hi: nat, more: seq<Inst>, d: nat, path: seq<nat>)
    requires Copied(prog, lo, hi, more, d)
    ensures Via(prog, lo, hi, lo, path) <==> Via(more, lo + d, hi + d, lo + d, Up(path, d))
  {
    hide Edge, Copied;
    var up := Up(path, d);
    if Via(prog, lo, hi, lo, path) {
      forall k | 0 <= k < |up| - 1 ensures Edge(more, up[k], up[k + 1]) {
        assert Edge(prog, path[k], path[k + 1]);
        EdgeCopied(prog, lo, hi, more, d, path[k], path[k + 1]);
      }
    }
    if Via(more, lo + d, hi + d, lo + d, up) {
      forall k | 0 <= k < |path| - 1 ensures Edge(prog, path[k], path[k + 1]) && lo <= path[k] < hi {
        assert Edge(more, up[k], up[k + 1]) && up[k] == path[k] + d;
        EdgeCopied(prog, lo, hi, more, d, path[k], path[k + 1]);
      }
    }
  }

  lemma {:induction false} RunsCopied(prog: seq<Inst>, lo: nat, hi: nat, more: seq<Inst>, d: nat, w: seq<Inst>)
    requires Copied(prog, lo, hi, more, d)
    ensures Runs(prog, lo, hi, lo, w) ==> Runs(more, lo + d, hi + d, lo + d, w)
  {
    if Runs(prog, lo, hi, lo, w) {
      var path :| Via(prog, lo, hi, lo, path) && Word(prog, path) == w;
      ViaCopied(prog, lo, hi, more, d, path);
      WordCopied(prog, lo, hi, more, d, path);
    }
  }

  lemma {:induction false} Down(up: seq<nat>, d: nat) returns (path: seq<nat>)
    requires forall k :: 0 <= k < |up| ==> d <= up[k]
    ensures Up(path, d) == up
  {
    path := seq(|up|, k requires 0 <= k < |up| && d <= up[k] => up[k] - d);
  }

  lemma {:induction false} RunsBack(prog: seq<Inst>, lo: nat, hi: nat, more: seq<Inst>, d: nat, w: seq<Inst>)
    requires Copied(prog, lo, hi, more, d)
    ensures Runs(more, lo + d, hi + d, lo + d, w) ==> Runs(prog, lo, hi, lo, w)
  {
    if Runs(more, lo + d, hi + d, lo + d, w) {
      var up :| Via(more, lo + d, hi + d, lo + d, up) && Word(more, up) == w;
      var path := Down(up, d);
      ViaCopied(prog, lo, hi, more, d, path);
      WordCopied(prog, lo, hi, more, d, path);
    }
  }

  lemma {:induction false} ClosedCopied(prog: seq<Inst>, lo: nat, hi: nat, more: seq<Inst>, d: nat)
    requires Copied(prog, lo, hi, more, d) && Closed(prog, lo, hi)
    ensures Closed(more, lo + d, hi + d)
  {
    var from, to := lo + d, hi + d;
    forall pc | from <= pc < to ensures Leads(more, pc, from, to) {
      assert Leads(prog, pc - d, lo, hi) && more[pc - d + d] == Moved(prog[pc - d], d);
    }
  }

  // ---- expressions

  /** An expression, and the sequences of requests it allows; n is -1 for no upper bound. */
  datatype Re = Nil | One(inst: Inst) | Cat(a: Re, b: Re) | Or(a: Re, b: Re) | Rep(a: Re, m: nat, n: int)

  ghost predicate Means(re: Re, w: seq<Inst>)
    decreases re, 0
  {
    match re
    case Nil => w == []
    case One(inst) => w == [inst]
    case Cat(a, b) => exists i :: 0 <= i <= |w| && Means(a, w[..i]) && Means(b, w[i..])
    case Or(a, b) => Means(a, w) || Means(b, w)
    case Rep(a, m, n) => exists k: nat :: Times(a, k, w) && m <= k && (n == -1 || k <= n)
  }

  /** k times in a row. */
  ghost predicate Times(a: Re, k: nat, w: seq<Inst>)
    decreases a, k + 1
  {
    if k == 0 then w == [] else exists i :: 0 <= i <= |w| && Means(a, w[..i]) && Times(a, k - 1, w[i..])
  }

  lemma {:induction false} RepTimes(a: Re, m: nat, n: int, w: seq<Inst>) returns (k: nat)
    requires Means(Rep(a, m, n), w)
    ensures Times(a, k, w) && m <= k && (n == -1 || k <= n)
  {
    k :| Times(a, k, w) && m <= k && (n == -1 || k <= n);
  }

  lemma {:induction false} TimesRep(a: Re, m: nat, n: int, k: nat, w: seq<Inst>)
    requires Times(a, k, w) && m <= k && (n == -1 || k <= n)
    ensures Means(Rep(a, m, n), w)
  {
  }

  lemma {:induction false} TimesFirst(a: Re, k: nat, w: seq<Inst>) returns (i: nat)
    requires 0 < k && Times(a, k, w)
    ensures i <= |w| && Means(a, w[..i]) && Times(a, k - 1, w[i..])
  {
    i :| 0 <= i <= |w| && Means(a, w[..i]) && Times(a, k - 1, w[i..]);
  }

  /** The code from lo to hi, closed in itself, asks for exactly what the expression allows. */
  ghost predicate Denotes(prog: seq<Inst>, lo: nat, hi: nat, re: Re) {
    Closed(prog, lo, hi) && forall w :: Runs(prog, lo, hi, lo, w) <==> Means(re, w)
  }

  lemma {:induction false} DenotesAt(prog: seq<Inst>, lo: nat, hi: nat, re: Re, w: seq<Inst>)
    requires Denotes(prog, lo, hi, re)
    ensures Runs(prog, lo, hi, lo, w) <==> Means(re, w)
  {
  }

  lemma {:induction false} DenotesCopied(prog: seq<Inst>, lo: nat, hi: nat, more: seq<Inst>, d: nat, re: Re)
    requires Copied(prog, lo, hi, more, d) && Denotes(prog, lo, hi, re)
    ensures Denotes(more, lo + d, hi + d, re)
  {
    ClosedCopied(prog, lo, hi, more, d);
    forall w ensures Runs(more, lo + d, hi + d, lo + d, w) <==> Means(re, w) {
      RunsCopied(prog, lo, hi, more, d, w);
      RunsBack(prog, lo, hi, more, d, w);
    }
  }

  // ---- code behind code

  lemma {:induction false} RunsSplit(prog: seq<Inst>, lo: nat, mid: nat, hi: nat, w: seq<Inst>) returns (i: nat)
    requires Closed(prog, lo, mid) && Closed(prog, mid, hi) && Runs(prog, lo, hi, lo, w)
    ensures i <= |w| && Runs(prog, lo, mid, lo, w[..i]) && Runs(prog, mid, hi, mid, w[i..])
  {
    var path :| Via(prog, lo, hi, lo, path) && Word(prog, path) == w;
    var k := Arrives(prog, lo, mid, path);
    CatTaken(prog, lo, mid, hi, path, k);
    WordOf(prog, path, k);
    hide Word, Via, Closed;
    i := |Word(prog, path[..k + 1])|;
    assert w[..i] == Word(prog, path[..k + 1]) && w[i..] == Word(prog, path[k..]);
  }

  lemma {:induction false} RunsJoin(prog: seq<Inst>, lo: nat, mid: nat, hi: nat, u: seq<Inst>, v: seq<Inst>)
    requires lo <= mid <= hi && Runs(prog, lo, mid, lo, u) && Runs(prog, mid, hi, mid, v)
    ensures Runs(prog, lo, hi, lo, u + v)
  {
    var p :| Via(prog, lo, mid, lo, p) && Word(prog, p) == u;
    var q :| Via(prog, mid, hi, mid, q) && Word(prog, q) == v;
    var path := Joined(prog, p, q);
    assert Via(prog, lo, hi, lo, path);
  }

  lemma {:induction false} CatTaken(prog: seq<Inst>, lo: nat, mid: nat, hi: nat, path: seq<nat>, k: nat)
    requires lo <= mid <= hi && Via(prog, lo, hi, lo, path) && Closed(prog, mid, hi)
    requires k < |path| && path[k] == mid && forall j :: 0 <= j < k ==> lo <= path[j] < mid
    ensures Via(prog, lo, mid, lo, path[..k + 1]) && Via(prog, mid, hi, mid, path[k..])
  {
    Part(prog, path, 0, k + 1);
    Part(prog, path, k, |path|);
    assert path[0..k + 1] == path[..k + 1] && path[k..|path|] == path[k..];
    var j := Arrives(prog, mid, hi, path[k..]);
    assert path[k..][j] == path[k + j] == hi;
    assert k + j == |path| - 1;
  }

  lemma {:induction false} CatDenotes(prog: seq<Inst>, lo: nat, mid: nat, hi: nat, a: Re, b: Re)
    requires Denotes(prog, lo, mid, a) && Denotes(prog, mid, hi, b)
    ensures Denotes(prog, lo, hi, Cat(a, b))
  {
    hide Runs;
    forall w ensures Runs(prog, lo, hi, lo, w) <==> Means(Cat(a, b), w) {
      if Runs(prog, lo, hi, lo, w) { var i := RunsSplit(prog, lo, mid, hi, w); }
      if Means(Cat(a, b), w) {
        var i :| 0 <= i <= |w| && Means(a, w[..i]) && Means(b, w[i..]);
        RunsJoin(prog, lo, mid, hi, w[..i], w[i..]);
        assert w[..i] + w[i..] == w;
      }
    }
    forall pc | lo <= pc < hi ensures Leads(prog, pc, lo, hi) {
      if pc < mid { assert Leads(prog, pc, lo, mid); } else { assert Leads(prog, pc, mid, hi); }
    }
  }

  // ---- one instruction, and none

  lemma {:induction false} NilDenotes(prog: seq<Inst>, lo: nat)
    requires lo <= |prog|
    ensures Denotes(prog, lo, lo, Nil)
  {
    forall w ensures Runs(prog, lo, lo, lo, w) <==> w == [] {
      assert Via(prog, lo, lo, lo, [lo]) && Word(prog, [lo]) == [];
      if Runs(prog, lo, lo, lo, w) {
        var path :| Via(prog, lo, lo, lo, path) && Word(prog, path) == w;
        assert |path| == 1;
      }
    }
  }

  lemma {:induction false} OneDenotes(prog: seq<Inst>, lo: nat)
    requires lo < |prog| && !prog[lo].Jmp? && !prog[lo].Split? && !prog[lo].Match?
    ensures Denotes(prog, lo, lo + 1, One(prog[lo]))
  {
    var hi := lo + 1;
    forall w ensures Runs(prog, lo, hi, lo, w) <==> w == [prog[lo]] {
      var two := [lo, hi];
      assert Path(prog, two) && two[1..] == [hi] && Word(prog, [hi]) == [];
      assert Via(prog, lo, hi, lo, two) && Word(prog, two) == [prog[lo]];
      if Runs(prog, lo, hi, lo, w) {
        var path :| Via(prog, lo, hi, lo, path) && Word(prog, path) == w;
        assert Edge(prog, path[0], path[0 + 1]) && path[1] == hi;
        assert |path| == 2;
        assert path == two;
      }
    }
  }

  // ---- zero or more

  /** A split, the body, and the way back to the split. */
  predicate StarAt(prog: seq<Inst>, lo: nat, hi: nat) {
    lo + 2 <= hi <= |prog| && prog[lo] == Split(lo + 1, hi) && prog[hi - 1] == Jmp(lo)
  }

  lemma {:induction false} StepTo(prog: seq<Inst>, lo: nat, hi: nat, a: nat, b: nat, w: seq<Inst>)
    requires lo <= a < hi && Edge(prog, a, b) && Runs(prog, lo, hi, b, w)
    ensures Runs(prog, lo, hi, a, Label(prog, a) + w)
  {
    var q :| Via(prog, lo, hi, b, q) && Word(prog, q) == w;
    var path := [a] + q;
    assert path[1..] == q;
    forall k | 0 <= k < |path| - 1 ensures Edge(prog, path[k], path[k + 1]) {
      if k > 0 { assert Edge(prog, q[k - 1], q[k - 1 + 1]); }
    }
    assert Via(prog, lo, hi, a, path);
  }

  /** A jump or split asks for nothing. */
  lemma {:induction false} StepFree(prog: seq<Inst>, lo: nat, hi: nat, a: nat, b: nat, w: seq<Inst>)
    requires lo <= a < hi && Edge(prog, a, b) && (prog[a].Jmp? || prog[a].Split?) && Runs(prog, lo, hi, b, w)
    ensures Runs(prog, lo, hi, a, w)
  {
    hide Runs;
    StepTo(prog, lo, hi, a, b, w);
    assert [] + w == w;
  }

  lemma {:induction false} AtEnd(prog: seq<Inst>, lo: nat, hi: nat)
    ensures Runs(prog, lo, hi, hi, [])
  {
    assert Via(prog, lo, hi, hi, [hi]) && Word(prog, [hi]) == [];
  }

  /** Through inner code, and on from its end. */
  lemma {:induction false} Through(prog: seq<Inst>, lo: nat, hi: nat, from: nat, to: nat, u: seq<Inst>, v: seq<Inst>)
    requires lo <= from <= to < hi && Runs(prog, from, to, from, u) && Runs(prog, lo, hi, to, v)
    ensures Runs(prog, lo, hi, from, u + v)
  {
    var p :| Via(prog, from, to, from, p) && Word(prog, p) == u;
    var q :| Via(prog, lo, hi, to, q) && Word(prog, q) == v;
    var path := Joined(prog, p, q);
    assert Via(prog, lo, hi, from, path);
  }

  /** A path that begins in inner code gets to its end, and goes on from there. */
  lemma {:induction false} Leaves(prog: seq<Inst>, lo: nat, hi: nat, from: nat, to: nat, path: seq<nat>)
    returns (j: nat)
    requires lo <= from <= to < hi && Closed(prog, from, to) && Via(prog, lo, hi, from, path)
    ensures j < |path| - 1 && Via(prog, from, to, from, path[..j + 1]) && Via(prog, lo, hi, to, path[j..])
    ensures Word(prog, path) == Word(prog, path[..j + 1]) + Word(prog, path[j..])
  {
    j := Arrives(prog, from, to, path);
    Part(prog, path, 0, j + 1);
    Part(prog, path, j, |path|);
    assert path[0..j + 1] == path[..j + 1] && path[j..|path|] == path[j..];
    WordOf(prog, path, j);
  }

  /** One step. */
  lemma {:induction false} Next(prog: seq<Inst>, lo: nat, hi: nat, a: nat, path: seq<nat>) returns (b: nat)
    requires a < hi && Via(prog, lo, hi, a, path)
    ensures |path| > 1 && b == path[1] && Edge(prog, a, b) && Via(prog, lo, hi, b, path[1..])
    ensures Word(prog, path) == Label(prog, a) + Word(prog, path[1..])
  {
    b := path[1];
    assert Edge(prog, path[0], path[0 + 1]);
    Part(prog, path, 1, |path|);
    assert path[1..|path|] == path[1..];
  }

  /** Each time round asks for what the body does. */
  lemma {:induction false} StarTaken(prog: seq<Inst>, lo: nat, hi: nat, a: Re, path: seq<nat>) returns (k: nat)
    requires StarAt(prog, lo, hi) && Denotes(prog, lo + 1, hi - 1, a) && Via(prog, lo, hi, lo, path)
    ensures Times(a, k, Word(prog, path))
    decreases |path|
  {
    hide Via, Word, Closed;
    var b := Next(prog, lo, hi, lo, path);
    var rest := path[1..];
    assert [] + Word(prog, rest) == Word(prog, rest);
    if b == hi {
      AtHi(prog, lo, hi, rest);
      k := 0;
    } else {
      var j := Leaves(prog, lo, hi, lo + 1, hi - 1, rest);
      var back := rest[j..];
      var c := Next(prog, lo, hi, hi - 1, back);
      k := StarTaken(prog, lo, hi, a, back[1..]);
      var u, v := Word(prog, rest[..j + 1]), Word(prog, back[1..]);
      assert Runs(prog, lo + 1, hi - 1, lo + 1, u);
      assert [] + v == v;
      hide Times, Means;
      TimesMore(a, k, u, v);
      k := k + 1;
    }
  }

  lemma {:induction false} AtHi(prog: seq<Inst>, lo: nat, hi: nat, path: seq<nat>)
    requires Via(prog, lo, hi, hi, path)
    ensures path == [hi] && Word(prog, path) == []
  {
  }

  lemma {:induction false} TimesMore(a: Re, k: nat, u: seq<Inst>, v: seq<Inst>)
    requires Means(a, u) && Times(a, k, v)
    ensures Times(a, k + 1, u + v)
  {
    var w := u + v;
    assert w[..|u|] == u && w[|u|..] == v;
  }

  lemma {:induction false} StarRound(prog: seq<Inst>, lo: nat, hi: nat, u: seq<Inst>, v: seq<Inst>)
    requires StarAt(prog, lo, hi) && Runs(prog, lo + 1, hi - 1, lo + 1, u) && Runs(prog, lo, hi, lo, v)
    ensures Runs(prog, lo, hi, lo, u + v)
  {
    hide Runs;
    StepFree(prog, lo, hi, hi - 1, lo, v);
    Through(prog, lo, hi, lo + 1, hi - 1, u, v);
    StepFree(prog, lo, hi, lo, lo + 1, u + v);
  }

  lemma {:induction false} StarRuns(prog: seq<Inst>, lo: nat, hi: nat, a: Re, k: nat, w: seq<Inst>)
    requires StarAt(prog, lo, hi) && Denotes(prog, lo + 1, hi - 1, a) && Times(a, k, w)
    ensures Runs(prog, lo, hi, lo, w)
    decreases k
  {
    hide Runs, Denotes, Means;
    if k == 0 {
      AtEnd(prog, lo, hi);
      StepFree(prog, lo, hi, lo, hi, []);
    } else {
      var i := TimesFirst(a, k, w);
      hide Times, StarAt;
      DenotesAt(prog, lo + 1, hi - 1, a, w[..i]);
      StarRuns(prog, lo, hi, a, k - 1, w[i..]);
      StarRound(prog, lo, hi, w[..i], w[i..]);
      assert w[..i] + w[i..] == w;
    }
  }

  lemma {:induction false} StarDenotes(prog: seq<Inst>, lo: nat, hi: nat, a: Re)
    requires StarAt(prog, lo, hi) && Denotes(prog, lo + 1, hi - 1, a)
    ensures Denotes(prog, lo, hi, Rep(a, 0, -1))
  {
    forall w ensures Runs(prog, lo, hi, lo, w) <==> Means(Rep(a, 0, -1), w) {
      if Runs(prog, lo, hi, lo, w) {
        var path :| Via(prog, lo, hi, lo, path) && Word(prog, path) == w;
        var k := StarTaken(prog, lo, hi, a, path);
        TimesRep(a, 0, -1, k, w);
      }
      if Means(Rep(a, 0, -1), w) {
        var k := RepTimes(a, 0, -1, w);
        StarRuns(prog, lo, hi, a, k, w);
      }
    }
    var from, to := lo + 1, hi - 1;
    forall pc | lo <= pc < hi ensures Leads(prog, pc, lo, hi) {
      if from <= pc < to { assert Leads(prog, pc, from, to); }
    }
  }

  // ---- one or more

  predicate PlusAt(prog: seq<Inst>, lo: nat, hi: nat) {
    lo < hi <= |prog| && prog[hi - 1] == Split(lo, hi)
  }

  lemma {:induction false} PlusTaken(prog: seq<Inst>, lo: nat, hi: nat, a: Re, path: seq<nat>) returns (k: nat)
    requires PlusAt(prog, lo, hi) && Denotes(prog, lo, hi - 1, a) && Via(prog, lo, hi, lo, path)
    ensures 1 <= k && Times(a, k, Word(prog, path))
    decreases |path|
  {
    var j := Leaves(prog, lo, hi, lo, hi - 1, path);
    var back := path[j..];
    var c := Next(prog, lo, hi, hi - 1, back);
    var u, v := Word(prog, path[..j + 1]), Word(prog, back[1..]);
    assert Runs(prog, lo, hi - 1, lo, u);
    assert Word(prog, back) == [] + v == v;
    if c == hi {
      AtHi(prog, lo, hi, back[1..]);
      k := 0;
    } else {
      k := PlusTaken(prog, lo, hi, a, back[1..]);
    }
    TimesMore(a, k, u, v);
    k := k + 1;
  }

  lemma {:induction false} PlusRound(prog: seq<Inst>, lo: nat, hi: nat, to: nat, u: seq<Inst>, v: seq<Inst>)
    requires PlusAt(prog, lo, hi) && Runs(prog, lo, hi - 1, lo, u) && (to == lo || to == hi)
    requires Runs(prog, lo, hi, to, v)
    ensures Runs(prog, lo, hi, lo, u + v)
  {
    hide Runs;
    StepFree(prog, lo, hi, hi - 1, to, v);
    Through(prog, lo, hi, lo, hi - 1, u, v);
  }

  lemma {:induction false} PlusRuns(prog: seq<Inst>, lo: nat, hi: nat, a: Re, k: nat, w: seq<Inst>)
    requires PlusAt(prog, lo, hi) && Denotes(prog, lo, hi - 1, a) && Times(a, k + 1, w)
    ensures Runs(prog, lo, hi, lo, w)
    decreases k
  {
    hide Runs, Denotes, Means;
    var i := TimesFirst(a, k + 1, w);
    DenotesAt(prog, lo, hi - 1, a, w[..i]);
    assert w[..i] + w[i..] == w;
    if k == 0 {
      AtEnd(prog, lo, hi);
      PlusRound(prog, lo, hi, hi, w[..i], []);
    } else {
      hide Times, PlusAt;
      PlusRuns(prog, lo, hi, a, k - 1, w[i..]);
      PlusRound(prog, lo, hi, lo, w[..i], w[i..]);
    }
  }

  lemma {:induction false} PlusDenotes(prog: seq<Inst>, lo: nat, hi: nat, a: Re)
    requires PlusAt(prog, lo, hi) && Denotes(prog, lo, hi - 1, a)
    ensures Denotes(prog, lo, hi, Rep(a, 1, -1))
  {
    forall w ensures Runs(prog, lo, hi, lo, w) <==> Means(Rep(a, 1, -1), w) {
      if Runs(prog, lo, hi, lo, w) {
        var path :| Via(prog, lo, hi, lo, path) && Word(prog, path) == w;
        var k := PlusTaken(prog, lo, hi, a, path);
        TimesRep(a, 1, -1, k, w);
      }
      if Means(Rep(a, 1, -1), w) {
        var k := RepTimes(a, 1, -1, w);
        PlusRuns(prog, lo, hi, a, k - 1, w);
      }
    }
    var to := hi - 1;
    forall pc | lo <= pc < hi ensures Leads(prog, pc, lo, hi) {
      if pc < to { assert Leads(prog, pc, lo, to); }
    }
  }

  // ---- one way or the other

  predicate OrAt(prog: seq<Inst>, lo: nat, mid: nat, hi: nat) {
    lo < mid < hi <= |prog| && prog[lo] == Split(lo + 1, mid + 1) && prog[mid] == Jmp(hi)
  }

  lemma {:induction false} OrTaken(prog: seq<Inst>, lo: nat, mid: nat, hi: nat, a: Re, b: Re, path: seq<nat>)
    requires OrAt(prog, lo, mid, hi) && Denotes(prog, lo + 1, mid, a) && Denotes(prog, mid + 1, hi, b)
    requires Via(prog, lo, hi, lo, path)
    ensures Means(Or(a, b), Word(prog, path))
  {
    var c := Next(prog, lo, hi, lo, path);
    var rest := path[1..];
    assert Word(prog, path) == [] + Word(prog, rest) == Word(prog, rest);
    if c == lo + 1 {
      FirstTaken(prog, lo, mid, hi, rest);
      DenotesAt(prog, lo + 1, mid, a, Word(prog, rest));
    } else {
      SecondTaken(prog, lo, mid, hi, rest);
      DenotesAt(prog, mid + 1, hi, b, Word(prog, rest));
    }
    hide Denotes, Runs, Via;
  }

  lemma {:induction false} FirstTaken(prog: seq<Inst>, lo: nat, mid: nat, hi: nat, rest: seq<nat>)
    requires OrAt(prog, lo, mid, hi) && Closed(prog, lo + 1, mid) && Via(prog, lo, hi, lo + 1, rest)
    ensures Runs(prog, lo + 1, mid, lo + 1, Word(prog, rest))
  {
    var j := Leaves(prog, lo, hi, lo + 1, mid, rest);
    var jump := rest[j..];
    var d := Next(prog, lo, hi, mid, jump);
    AtHi(prog, lo, hi, jump[1..]);
    var u := Word(prog, rest[..j + 1]);
    assert Runs(prog, lo + 1, mid, lo + 1, u);
    assert Word(prog, rest) == u + ([] + []) == u;
  }

  lemma {:induction false} SecondTaken(prog: seq<Inst>, lo: nat, mid: nat, hi: nat, rest: seq<nat>)
    requires OrAt(prog, lo, mid, hi) && Closed(prog, mid + 1, hi) && Via(prog, lo, hi, mid + 1, rest)
    ensures Runs(prog, mid + 1, hi, mid + 1, Word(prog, rest))
  {
    var j := Arrives(prog, mid + 1, hi, rest);
    assert j == |rest| - 1;
    assert Via(prog, mid + 1, hi, mid + 1, rest);
  }

  lemma {:induction false} OrDenotes(prog: seq<Inst>, lo: nat, mid: nat, hi: nat, a: Re, b: Re)
    requires OrAt(prog, lo, mid, hi) && Denotes(prog, lo + 1, mid, a) && Denotes(prog, mid + 1, hi, b)
    ensures Denotes(prog, lo, hi, Or(a, b))
  {
    forall w ensures Runs(prog, lo, hi, lo, w) <==> Means(Or(a, b), w) {
      if Runs(prog, lo, hi, lo, w) {
        var path :| Via(prog, lo, hi, lo, path) && Word(prog, path) == w;
        OrTaken(prog, lo, mid, hi, a, b, path);
      }
      if Means(Or(a, b), w) { OrRuns(prog, lo, mid, hi, a, b, w); }
    }
    var from, to := lo + 1, mid + 1;
    forall pc | lo <= pc < hi ensures Leads(prog, pc, lo, hi) {
      if from <= pc < mid { assert Leads(prog, pc, from, mid); }
      if to <= pc { assert Leads(prog, pc, to, hi); }
    }
  }

  lemma {:induction false} OrRuns(prog: seq<Inst>, lo: nat, mid: nat, hi: nat, a: Re, b: Re, w: seq<Inst>)
    requires OrAt(prog, lo, mid, hi) && Denotes(prog, lo + 1, mid, a) && Denotes(prog, mid + 1, hi, b)
    requires Means(Or(a, b), w)
    ensures Runs(prog, lo, hi, lo, w)
  {
    if Means(a, w) {
      AtEnd(prog, lo, hi);
      StepTo(prog, lo, hi, mid, hi, []);
      Through(prog, lo, hi, lo + 1, mid, w, []);
      assert w + [] == w;
      StepTo(prog, lo, hi, lo, lo + 1, w);
    } else {
      var q :| Via(prog, mid + 1, hi, mid + 1, q) && Word(prog, q) == w;
      assert Via(prog, lo, hi, mid + 1, q);
      StepTo(prog, lo, hi, lo, mid + 1, w);
    }
    assert [] + w == w;
  }

  // ---- at most once

  lemma {:induction false} OptionalDenotes(prog: seq<Inst>, lo: nat, hi: nat, a: Re)
    requires lo < hi <= |prog| && prog[lo] == Split(lo + 1, hi) && Denotes(prog, lo + 1, hi, a)
    ensures Denotes(prog, lo, hi, Or(a, Nil))
  {
    forall w ensures Runs(prog, lo, hi, lo, w) <==> Means(Or(a, Nil), w) {
      if Runs(prog, lo, hi, lo, w) {
        var path :| Via(prog, lo, hi, lo, path) && Word(prog, path) == w;
        OptionalTaken(prog, lo, hi, a, path);
      }
      if Means(a, w) {
        var q :| Via(prog, lo + 1, hi, lo + 1, q) && Word(prog, q) == w;
        assert Via(prog, lo, hi, lo + 1, q);
        StepTo(prog, lo, hi, lo, lo + 1, w);
        assert [] + w == w;
      }
      if w == [] {
        AtEnd(prog, lo, hi);
        StepTo(prog, lo, hi, lo, hi, []);
      }
    }
    var from := lo + 1;
    forall pc | lo <= pc < hi ensures Leads(prog, pc, lo, hi) {
      if from <= pc { assert Leads(prog, pc, from, hi); }
    }
  }

  lemma {:induction false} OptionalTaken(prog: seq<Inst>, lo: nat, hi: nat, a: Re, path: seq<nat>)
    requires lo < hi <= |prog| && prog[lo] == Split(lo + 1, hi) && Denotes(prog, lo + 1, hi, a)
    requires Via(prog, lo, hi, lo, path)
    ensures Means(a, Word(prog, path)) || Word(prog, path) == []
  {
    var c := Next(prog, lo, hi, lo, path);
    var rest := path[1..];
    assert Word(prog, path) == [] + Word(prog, rest) == Word(prog, rest);
    if c == hi {
      AtHi(prog, lo, hi, rest);
    } else {
      var j := Arrives(prog, lo + 1, hi, rest);
      assert j == |rest| - 1;
      assert Via(prog, lo + 1, hi, lo + 1, rest);
      assert Runs(prog, lo + 1, hi, lo + 1, Word(prog, rest));
    }
  }
}
